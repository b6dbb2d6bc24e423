/** The virtual-pointer worker: commands in, Wayland requests out, with output geometry kept on the side. */
module Pointer {
  import opened Decimal
  import opened Boxes

  const U32_MAX: int := 0xFFFF_FFFF

  type u32 = n: int | 0 <= n <= U32_MAX

  // ---- outputs ----------------------------------------------------------------------------------

  datatype Geom = Geom(x: i32, y: i32, width: i32, height: i32)

  const UNPLACED: Geom := Geom(0, 0, 0, 0)

  datatype OutputEvent =
    | Geometry(id: nat, x: i32, y: i32)
    | Mode(id: nat, width: i32, height: i32, current: bool)
    | Other(id: nat)

  /** Any event makes the output known; its position and its current mode are remembered. */
  function ApplyOutput(outputs: map<nat, Geom>, ev: OutputEvent): map<nat, Geom> {
    var entry := if ev.id in outputs then outputs[ev.id] else UNPLACED;
    match ev
    case Geometry(id, x, y) => outputs[id := entry.(x := x, y := y)]
    case Mode(id, width, height, current) =>
      outputs[id := if current then entry.(width := width, height := height) else entry]
    case Other(id) => outputs[id := entry]
  }

  function FarEdge(g: Geom, horizontal: bool): i32 {
    if horizontal then SaturatingAdd(g.x, g.width) else SaturatingAdd(g.y, g.height)
  }

  /** The least number that is at least one and reaches the far edge of every output. */
  predicate IsExtent(e: u32, outputs: map<nat, Geom>, horizontal: bool) {
    && e >= 1
    && (forall id | id in outputs :: FarEdge(outputs[id], horizontal) <= e)
    && (e == 1 || exists id | id in outputs :: FarEdge(outputs[id], horizontal) == e)
  }

  /** The outputs are visited in no particular order. */
  method UnionExtents(outputs: map<nat, Geom>) returns (ex: u32, ey: u32)
    ensures IsExtent(ex, outputs, true) && IsExtent(ey, outputs, false)
  {
    var maxX: i32, maxY: i32 := 0, 0;
    var rest := outputs.Keys;
    while rest != {}
      invariant rest <= outputs.Keys && maxX >= 0 && maxY >= 0
      invariant forall id | id in outputs.Keys - rest ::
        FarEdge(outputs[id], true) <= maxX && FarEdge(outputs[id], false) <= maxY
      invariant maxX == 0 || exists id | id in outputs :: FarEdge(outputs[id], true) == maxX
      invariant maxY == 0 || exists id | id in outputs :: FarEdge(outputs[id], false) == maxY
    {
      var id :| id in rest;
      rest := rest - {id};
      maxX := Max(maxX, FarEdge(outputs[id], true));
      maxY := Max(maxY, FarEdge(outputs[id], false));
    }
    ex, ey := Max(maxX, 1), Max(maxY, 1);
  }

  // ---- commands and requests --------------------------------------------------------------------

  datatype Cmd =
    | MoveAbs(x: i32, y: i32)
    | MoveRel(dx: i32, dy: i32)
    | Click(button: u32)

  datatype Request =
    | MotionAbsolute(time: u32, px: u32, py: u32, xExtent: u32, yExtent: u32)
    | Motion(time: u32, dx: i32, dy: i32)
    | Button(time: u32, button: u32, pressed: bool)
    | Frame
    | Destroy

  function SaturatingInc(t: u32): u32 {
    if t == U32_MAX then t else t + 1
  }

  function Clamp(v: i32, extent: u32): u32 {
    var low := if v < 0 then 0 else v;
    if low > extent then extent else low
  }

  /** The requests for one command, when the clock stands at `clock` and the extents are as given. */
  function Emitted(cmd: Cmd, clock: u32, ex: u32, ey: u32): seq<Request> {
    var t := SaturatingInc(clock);
    match cmd
    case MoveAbs(x, y) => [MotionAbsolute(t, Clamp(x, ex), Clamp(y, ey), ex, ey), Frame]
    case MoveRel(dx, dy) => [Motion(t, dx, dy), Frame]
    case Click(button) => [Button(t, button, true), Frame, Button(SaturatingInc(t), button, false), Frame]
  }

  function ClockAfter(cmd: Cmd, clock: u32): u32 {
    if cmd.Click? then SaturatingInc(SaturatingInc(clock)) else SaturatingInc(clock)
  }

  /** One handled command with what it was handled under. */
  datatype Entry = Entry(cmd: Cmd, clock: u32, ex: u32, ey: u32, outputs: map<nat, Geom>, ok: bool)

  function Transcript(log: seq<Entry>): seq<Request> {
    if log == [] then []
    else
      var last := log[|log| - 1];
      Transcript(log[..|log| - 1]) + Emitted(last.cmd, last.clock, last.ex, last.ey)
  }

  function ClockOf(log: seq<Entry>): u32 {
    if log == [] then 0 else ClockAfter(log[|log| - 1].cmd, log[|log| - 1].clock)
  }

  /** Every entry was handled under the extents of its outputs and the clock its predecessors left. */
  predicate WellLogged(log: seq<Entry>) {
    forall k | 0 <= k < |log| ::
      && IsExtent(log[k].ex, log[k].outputs, true)
      && IsExtent(log[k].ey, log[k].outputs, false)
      && log[k].clock == ClockOf(log[..k])
  }

  // ---- what arrives, and when it is read -----------------------------------------------------------

  function ApplyOutputs(outputs: map<nat, Geom>, evs: seq<OutputEvent>): map<nat, Geom>
    decreases |evs|
  {
    if evs == [] then outputs else ApplyOutputs(ApplyOutput(outputs, evs[0]), evs[1..])
  }

  /** How the round trip after a command goes: one that breaks applies only some of the events that have arrived. */
  datatype Trip = Complete | Broken(applied: nat)

  function Applied(arrived: seq<OutputEvent>, trip: Trip): nat {
    if trip.Complete? || trip.applied > |arrived| then |arrived| else trip.applied
  }

  /**
   * Inputs in order of arrival. The socket is read in round trips only: an output event that arrives while the
   * worker waits for a command stays on the wire until the round trip that ends that command. `during` arrives
   * while the command is handled.
   */
  datatype Input = Output(event: OutputEvent) | Command(cmd: Cmd, during: seq<OutputEvent>, trip: Trip) | Shutdown

  /** A command, the outputs it is handled under, and whether it is reported done. */
  datatype Job = Job(cmd: Cmd, outputs: map<nat, Geom>, ok: bool)

  /** The commands that arrive before the worker is told to stop. */
  function Accepted(inputs: seq<Input>, outputs: map<nat, Geom>, wire: seq<OutputEvent>): seq<Job>
    decreases |inputs|
  {
    if inputs == [] then []
    else match inputs[0]
      case Shutdown => []
      case Output(ev) => Accepted(inputs[1..], outputs, wire + [ev])
      case Command(cmd, during, trip) =>
        var arrived := wire + during;
        var n := Applied(arrived, trip);
        [Job(cmd, outputs, trip.Complete?)] + Accepted(inputs[1..], ApplyOutputs(outputs, arrived[..n]), arrived[n..])
  }

  function Jobs(log: seq<Entry>): (r: seq<Job>)
    ensures |r| == |log|
    ensures forall k | 0 <= k < |log| :: r[k] == Job(log[k].cmd, log[k].outputs, log[k].ok)
  {
    seq(|log|, k requires 0 <= k < |log| => Job(log[k].cmd, log[k].outputs, log[k].ok))
  }

  function Replies(log: seq<Entry>): (r: seq<bool>)
    ensures |r| == |log|
    ensures forall k | 0 <= k < |log| :: r[k] == log[k].ok
  {
    seq(|log|, k requires 0 <= k < |log| => log[k].ok)
  }

  class Worker {
    var outputs: map<nat, Geom>
    var wire: seq<OutputEvent>
    var clock: u32
    var sent: seq<Request>
    var replies: seq<bool>
    ghost var log: seq<Entry>

    ghost predicate Valid()
      reads this
    {
      sent == Transcript(log) && clock == ClockOf(log) && replies == Replies(log) && WellLogged(log)
    }

    constructor (outputs: map<nat, Geom>)
      ensures Valid() && log == [] && this.outputs == outputs && wire == []
    {
      this.outputs := outputs;
      wire, clock, sent, replies, log := [], 0, [], [], [];
    }

    method NextTime() returns (t: u32)
      modifies this`clock
      ensures t == clock == SaturatingInc(old(clock))
    {
      if clock < U32_MAX {
        clock := clock + 1;
      }
      t := clock;
    }

    method OnOutput(ev: OutputEvent)
      modifies this`outputs
      ensures outputs == ApplyOutput(old(outputs), ev)
    {
      var entry := if ev.id in outputs then outputs[ev.id] else UNPLACED;
      match ev {
        case Geometry(_, x, y) => entry := entry.(x := x, y := y);
        case Mode(_, width, height, current) =>
          if current {
            entry := entry.(width := width, height := height);
          }
        case Other(_) =>
      }
      outputs := outputs[ev.id := entry];
    }

    method Send(req: Request)
      modifies this`sent
      ensures sent == old(sent) + [req]
    {
      sent := sent + [req];
    }

    method SendFor(cmd: Cmd, ex: u32, ey: u32)
      modifies this`sent, this`clock
      ensures sent == old(sent) + Emitted(cmd, old(clock), ex, ey)
      ensures clock == ClockAfter(cmd, old(clock))
    {
      match cmd {
        case MoveAbs(x, y) =>
          var xx, yy := Clamp(x, ex), Clamp(y, ey);
          var t := NextTime();
          Send(MotionAbsolute(t, xx, yy, ex, ey));
          Send(Frame);
        case MoveRel(dx, dy) =>
          var t := NextTime();
          Send(Motion(t, dx, dy));
          Send(Frame);
        case Click(button) =>
          var t := NextTime();
          Send(Button(t, button, true));
          Send(Frame);
          var t2 := NextTime();
          Send(Button(t2, button, false));
          Send(Frame);
      }
    }

    /** Everything that has arrived is applied, in order, unless the trip breaks. */
    method RoundTrip(during: seq<OutputEvent>, trip: Trip) returns (ok: bool)
      modifies this`outputs, this`wire
      ensures ok == trip.Complete?
      ensures var arrived := old(wire) + during;
        var n := Applied(arrived, trip);
        outputs == ApplyOutputs(old(outputs), arrived[..n]) && wire == arrived[n..]
    {
      hide ApplyOutput;
      var arrived := wire + during;
      var n := Applied(arrived, trip);
      for i := 0 to n
        invariant ApplyOutputs(old(outputs), arrived[..n]) == ApplyOutputs(outputs, arrived[i..n])
      {
        assert arrived[i..n][0] == arrived[i] && arrived[i..n][1..] == arrived[i + 1..n];
        OnOutput(arrived[i]);
      }
      wire := arrived[n..];
      ok := trip.Complete?;
    }

    method Handle(cmd: Cmd, during: seq<OutputEvent>, trip: Trip)
      requires Valid()
      modifies this
      ensures Valid()
      ensures exists ex, ey :: log == old(log) + [Entry(cmd, old(clock), ex, ey, old(outputs), trip.Complete?)]
      ensures var arrived := old(wire) + during;
        var n := Applied(arrived, trip);
        outputs == ApplyOutputs(old(outputs), arrived[..n]) && wire == arrived[n..]
    {
      hide Transcript, WellLogged, Emitted, IsExtent, ApplyOutputs;
      var ex, ey := UnionExtents(outputs);
      ghost var entry := Entry(cmd, clock, ex, ey, outputs, trip.Complete?);
      SendFor(cmd, ex, ey);
      var ok := RoundTrip(during, trip);
      replies := replies + [ok];
      LoggedSnoc(log, entry);
      log := log + [entry];
    }

    /** The worker's life: events and commands in any order, until shutdown or the end of the channel. */
    method Serve(inputs: seq<Input>)
      requires Valid() && log == [] && wire == []
      modifies this
      ensures sent == Transcript(log) + [Destroy]
      ensures WellLogged(log)
      ensures Jobs(log) == Accepted(inputs, old(outputs), []) && replies == Replies(log)
    {
      hide ApplyOutputs, Applied, Transcript, WellLogged, Emitted, ClockOf, Replies, Jobs;
      var i := 0;
      while i < |inputs|
        invariant i <= |inputs| && Valid()
        invariant Accepted(inputs, old(outputs), []) == Jobs(log) + Accepted(inputs[i..], outputs, wire)
      {
        assert inputs[i..][1..] == inputs[i + 1..];
        match inputs[i] {
          case Shutdown => break;
          case Output(ev) => wire := wire + [ev];
          case Command(cmd, during, trip) =>
            ghost var before, job := log, Job(cmd, outputs, trip.Complete?);
            Handle(cmd, during, trip);
            JobsSnoc(before, log, job, Accepted(inputs[i + 1..], outputs, wire));
        }
        i := i + 1;
      }
      sent := sent + [Destroy];
    }
  }

  lemma LoggedSnoc(log: seq<Entry>, entry: Entry)
    requires WellLogged(log) && entry.clock == ClockOf(log)
    requires IsExtent(entry.ex, entry.outputs, true) && IsExtent(entry.ey, entry.outputs, false)
    ensures WellLogged(log + [entry])
    ensures Transcript(log + [entry]) == Transcript(log) + Emitted(entry.cmd, entry.clock, entry.ex, entry.ey)
    ensures ClockOf(log + [entry]) == ClockAfter(entry.cmd, entry.clock)
  {
    hide IsExtent, Emitted;
    var more := log + [entry];
    assert more[..|log|] == log;
    forall k | 0 <= k < |log| ensures more[..k] == log[..k] && more[k] == log[k] {}
  }

  lemma JobsSnoc(log: seq<Entry>, log': seq<Entry>, job: Job, rest: seq<Job>)
    requires |log'| == |log| + 1 && log'[..|log|] == log
    requires Job(log'[|log|].cmd, log'[|log|].outputs, log'[|log|].ok) == job
    ensures Jobs(log) + ([job] + rest) == Jobs(log') + rest
  {
    forall k | 0 <= k < |log| ensures log'[k] == log[k] {}
    assert Jobs(log') == Jobs(log) + [job];
  }

  // ---- how old the known outputs are ---------------------------------------------------------------

  /** The events that arrive before the round trip of the `k`-th command ends; none before the first command. */
  function ArrivedBy(inputs: seq<Input>, k: nat): seq<OutputEvent>
    decreases |inputs|
  {
    if k == 0 || inputs == [] then []
    else match inputs[0]
      case Shutdown => []
      case Output(ev) => [ev] + ArrivedBy(inputs[1..], k)
      case Command(_, during, _) => during + ArrivedBy(inputs[1..], k - 1)
  }

  /** The events that arrive between the end of the `k`-th round trip and the next command. */
  function ArrivedSince(inputs: seq<Input>, k: nat): seq<OutputEvent>
    decreases |inputs|
  {
    if inputs == [] then []
    else match inputs[0]
      case Shutdown => []
      case Output(ev) => (if k == 0 then [ev] else []) + ArrivedSince(inputs[1..], k)
      case Command(_, _, _) => if k == 0 then [] else ArrivedSince(inputs[1..], k - 1)
  }

  predicate AllComplete(inputs: seq<Input>) {
    forall i | 0 <= i < |inputs| && inputs[i].Command? :: inputs[i].trip.Complete?
  }

  lemma {:induction false} ApplyConcat(outputs: map<nat, Geom>, a: seq<OutputEvent>, b: seq<OutputEvent>)
    ensures ApplyOutputs(outputs, a + b) == ApplyOutputs(ApplyOutputs(outputs, a), b)
    decreases |a|
  {
    hide ApplyOutput;
    if a == [] {
      assert a + b == b;
    } else {
      assert (a + b)[0] == a[0] && (a + b)[1..] == a[1..] + b;
      ApplyConcat(ApplyOutput(outputs, a[0]), a[1..], b);
    }
  }

  lemma CompleteCommand(inputs: seq<Input>, outputs: map<nat, Geom>, wire: seq<OutputEvent>)
    requires inputs != [] && inputs[0].Command? && inputs[0].trip.Complete?
    ensures Accepted(inputs, outputs, wire)
         == [Job(inputs[0].cmd, outputs, true)]
            + Accepted(inputs[1..], ApplyOutputs(outputs, wire + inputs[0].during), [])
  {
    hide ApplyOutputs;
    var arrived := wire + inputs[0].during;
    assert arrived[..|arrived|] == arrived && arrived[|arrived|..] == [];
  }

  lemma {:induction false} FirstJob(inputs: seq<Input>, outputs: map<nat, Geom>, wire: seq<OutputEvent>)
    requires Accepted(inputs, outputs, wire) != []
    ensures Accepted(inputs, outputs, wire)[0].outputs == outputs
    decreases |inputs|
  {
    hide ApplyOutputs, Applied;
    if inputs[0].Output? { FirstJob(inputs[1..], outputs, wire + [inputs[0].event]); }
  }

  lemma OneInput(inputs: seq<Input>, outputs: map<nat, Geom>, wire: seq<OutputEvent>, k: nat)
    requires inputs != [] && k > 0
    ensures inputs[0].Shutdown? ==> Accepted(inputs, outputs, wire) == []
    ensures inputs[0].Output? ==>
      && Accepted(inputs, outputs, wire) == Accepted(inputs[1..], outputs, wire + [inputs[0].event])
      && ArrivedBy(inputs, k) == [inputs[0].event] + ArrivedBy(inputs[1..], k)
    ensures inputs[0].Command? ==> ArrivedBy(inputs, k) == inputs[0].during + ArrivedBy(inputs[1..], k - 1)
  {
  }

  lemma {:induction false} LaterJob(inputs: seq<Input>, outputs: map<nat, Geom>, wire: seq<OutputEvent>, k: nat)
    requires AllComplete(inputs) && 0 < k < |Accepted(inputs, outputs, wire)|
    ensures Accepted(inputs, outputs, wire)[k].outputs == ApplyOutputs(outputs, wire + ArrivedBy(inputs, k))
    decreases |inputs|
  {
    Nothing([], outputs, wire);
    hide ApplyOutputs, Accepted, ArrivedBy;
    var rest := inputs[1..];
    assert AllComplete(rest);
    OneInput(inputs, outputs, wire, k);
    match inputs[0] {
      case Output(ev) =>
        LaterJob(rest, outputs, wire + [ev], k);
        assert (wire + [ev]) + ArrivedBy(rest, k) == wire + ([ev] + ArrivedBy(rest, k));
      case Command(_, during, _) =>
        CompleteCommand(inputs, outputs, wire);
        var later, more := ApplyOutputs(outputs, wire + during), ArrivedBy(rest, k - 1);
        if k == 1 {
          FirstJob(rest, later, []);
          Nothing(rest, later, wire);
        } else {
          LaterJob(rest, later, [], k - 1);
          assert [] + more == more;
        }
        ApplyConcat(outputs, wire + during, more);
        assert (wire + during) + more == wire + (during + more);
      case Shutdown =>
    }
  }

  lemma Nothing(inputs: seq<Input>, outputs: map<nat, Geom>, wire: seq<OutputEvent>)
    ensures Accepted([], outputs, wire) == []
    ensures ArrivedBy(inputs, 0) == []
    ensures ApplyOutputs(outputs, []) == outputs
  {
  }

  /**
   * While round trips complete, a command is handled under exactly the outputs announced before the previous
   * command's round trip ended. So if no event has arrived since, its extents are those of the outputs as they
   * are: they reach every current edge.
   */
  lemma ExtentsKnown(inputs: seq<Input>, outputs: map<nat, Geom>, log: seq<Entry>, k: nat)
    requires AllComplete(inputs) && WellLogged(log) && Jobs(log) == Accepted(inputs, outputs, []) && k < |log|
    ensures log[k].outputs == ApplyOutputs(outputs, ArrivedBy(inputs, k))
    ensures var current := ApplyOutputs(outputs, ArrivedBy(inputs, k) + ArrivedSince(inputs, k));
      ArrivedSince(inputs, k) == [] ==> IsExtent(log[k].ex, current, true) && IsExtent(log[k].ey, current, false)
  {
    hide IsExtent, ApplyOutputs;
    if k == 0 { FirstJob(inputs, outputs, []); } else { LaterJob(inputs, outputs, [], k); }
    Nothing([], outputs, []);
    assert [] + ArrivedBy(inputs, k) == ArrivedBy(inputs, k);
    assert Jobs(log)[k].outputs == log[k].outputs;
    assert ArrivedBy(inputs, k) + [] == ArrivedBy(inputs, k);
  }

  /**
   * An event that has arrived since is not used: a monitor has grown from 1920 to 3840 pixels across while the
   * worker waited, and a move to 3000 is sent to 1920 of 1920. The next one goes where it should.
   */
  lemma StaleExtents(ex: u32, ey: u32)
    requires var small := map[0 := Geom(0, 0, 1920, 1080)]; IsExtent(ex, small, true) && IsExtent(ey, small, false)
    ensures var small, large := map[0 := Geom(0, 0, 1920, 1080)], map[0 := Geom(0, 0, 3840, 2160)];
      var move := MoveAbs(3000, 100);
      var inputs := [Output(Mode(0, 3840, 2160, true)), Command(move, [], Complete), Command(move, [], Complete)];
      && Accepted(inputs, small, []) == [Job(move, small, true), Job(move, large, true)]
      && Emitted(move, 0, ex, ey) == [MotionAbsolute(1, 1920, 100, 1920, 1080), Frame]
  {
    hide IsExtent;
    var small, large := map[0 := Geom(0, 0, 1920, 1080)], map[0 := Geom(0, 0, 3840, 2160)];
    var move, mode := MoveAbs(3000, 100), Mode(0, 3840, 2160, true);
    var command := Command(move, [], Complete);
    assert [mode][1..] == [] && [mode] + [] == [mode] && [mode][..1] == [mode] && [] + [mode] == [mode];
    assert ApplyOutput(small, mode) == large;
    assert ApplyOutputs(small, [mode]) == ApplyOutputs(ApplyOutput(small, mode), []) == large;
    var none: seq<OutputEvent> := [];
    assert none + none == none && none[..0] == none;
    assert Accepted([], large, none) == [];
    assert [command][1..] == [];
    assert Accepted([command], large, none) == [Job(move, large, true)] + Accepted([], ApplyOutputs(large, none), none);
    assert [command, command][1..] == [command];
    assert Accepted([command, command], small, [mode]) == [Job(move, small, true)] + Accepted([command], large, none);
    assert [Output(mode), command, command][1..] == [command, command];
    SoleExtent(ex, small[0], true);
    SoleExtent(ey, small[0], false);
  }

  lemma SoleExtent(e: u32, g: Geom, horizontal: bool)
    requires IsExtent(e, map[0 := g], horizontal)
    ensures e == if FarEdge(g, horizontal) >= 1 then FarEdge(g, horizontal) else 1
  {
    var outputs: map<nat, Geom> := map[0 := g];
    assert 0 in outputs;
  }

  // ---- what a transcript guarantees --------------------------------------------------------------

  /** Absolute motion stays within its extents. */
  predicate MotionsInside(reqs: seq<Request>) {
    forall k | 0 <= k < |reqs| && reqs[k].MotionAbsolute? ::
      && 0 <= reqs[k].px <= reqs[k].xExtent && 0 <= reqs[k].py <= reqs[k].yExtent
      && reqs[k].xExtent >= 1 && reqs[k].yExtent >= 1
  }

  function Stamps(reqs: seq<Request>): seq<u32> {
    if reqs == [] then []
    else if reqs[0].Frame? || reqs[0].Destroy? then Stamps(reqs[1..])
    else [reqs[0].time] + Stamps(reqs[1..])
  }

  /** Each stamp is the one before it plus one, until the counter is pinned at its maximum. */
  predicate Ticking(stamps: seq<u32>, from: u32) {
    stamps == [] || (stamps[0] == SaturatingInc(from) && Ticking(stamps[1..], stamps[0]))
  }

  /** The buttons down after the requests, or nothing if one is pressed twice or released while up. */
  datatype Held = Held(buttons: set<u32>) | Unpaired

  function HeldAfter(reqs: seq<Request>, held: set<u32>): Held {
    if reqs == [] then Held(held)
    else if reqs[0].Button? then
      var b := reqs[0].button;
      if reqs[0].pressed == (b in held) then Unpaired
      else HeldAfter(reqs[1..], if reqs[0].pressed then held + {b} else held - {b})
    else HeldAfter(reqs[1..], held)
  }

  lemma {:induction false} StampsConcat(a: seq<Request>, b: seq<Request>)
    ensures Stamps(a + b) == Stamps(a) + Stamps(b)
  {
    if a == [] { assert a + b == b; } else {
      assert (a + b)[1..] == a[1..] + b;
      StampsConcat(a[1..], b);
    }
  }

  lemma {:induction false} HeldConcat(a: seq<Request>, b: seq<Request>, held: set<u32>)
    requires HeldAfter(a, held).Held?
    ensures HeldAfter(a + b, held) == HeldAfter(b, HeldAfter(a, held).buttons)
  {
    if a == [] { assert a + b == b; } else {
      assert (a + b)[1..] == a[1..] + b;
      if a[0].Button? {
        HeldConcat(a[1..], b, if a[0].pressed then held + {a[0].button} else held - {a[0].button});
      } else {
        HeldConcat(a[1..], b, held);
      }
    }
  }

  function LastStamp(stamps: seq<u32>, from: u32): u32 {
    if stamps == [] then from else stamps[|stamps| - 1]
  }

  lemma {:induction false} TickingConcat(a: seq<u32>, b: seq<u32>, from: u32)
    requires Ticking(a, from) && Ticking(b, LastStamp(a, from))
    ensures Ticking(a + b, from)
  {
    if a == [] { assert a + b == b; } else {
      assert (a + b)[1..] == a[1..] + b;
      TickingConcat(a[1..], b, a[0]);
    }
  }

  lemma {:induction false} TickingRises(stamps: seq<u32>, from: u32, i: nat, j: nat)
    requires Ticking(stamps, from) && i < j < |stamps|
    ensures stamps[i] < stamps[j] || stamps[j] == U32_MAX
  {
    if i > 0 { TickingRises(stamps[1..], stamps[0], i - 1, j - 1); }
    else if j > 1 {
      TickingRises(stamps[1..], stamps[0], 0, j - 1);
      assert Ticking(stamps[1..], stamps[0]);
    }
  }

  lemma StampsPair(r: Request, rest: seq<Request>)
    requires !r.Frame? && !r.Destroy?
    ensures Stamps([r, Frame] + rest) == [r.time] + Stamps(rest)
  {
    var all := [r, Frame] + rest;
    assert all[1..] == [Frame] + rest;
    assert all[1..][1..] == rest;
  }

  lemma EmittedStamps(cmd: Cmd, clock: u32, ex: u32, ey: u32)
    ensures var stamps := Stamps(Emitted(cmd, clock, ex, ey));
      Ticking(stamps, clock) && LastStamp(stamps, clock) == ClockAfter(cmd, clock)
  {
    hide Clamp;
    var reqs := Emitted(cmd, clock, ex, ey);
    if cmd.Click? {
      assert reqs == [reqs[0], Frame] + ([reqs[2], Frame] + []);
      StampsPair(reqs[2], []);
      StampsPair(reqs[0], [reqs[2], Frame] + []);
      var t, u := reqs[0].time, reqs[2].time;
      assert Stamps([]) == [];
      assert Stamps(reqs) == [t, u];
      assert [t, u][1..] == [u] && [u][1..] == [];
      assert Ticking([], u) && Ticking([u], t);
    } else {
      assert reqs == [reqs[0], Frame] + [];
      StampsPair(reqs[0], []);
      assert Stamps([]) == [];
      assert Stamps(reqs) == [reqs[0].time];
      assert [reqs[0].time][1..] == [];
    }
  }

  lemma EmittedHeld(cmd: Cmd, clock: u32, ex: u32, ey: u32)
    ensures HeldAfter(Emitted(cmd, clock, ex, ey), {}) == Held({})
    ensures HeldAfter(Emitted(cmd, clock, ex, ey)[..2], {}) == Held(if cmd.Click? then {cmd.button} else {})
  {
    var reqs := Emitted(cmd, clock, ex, ey);
    assert reqs[1..][1..] == reqs[2..];
    assert reqs[..2][1..] == [Frame] && [Frame][1..] == [];
    var pressed: set<u32> := if cmd.Click? then {cmd.button} else {};
    assert HeldAfter([Frame], pressed) == HeldAfter([], pressed) == Held(pressed);
    if cmd.Click? {
      assert {} + {cmd.button} == pressed;
      assert reqs[2..] == [reqs[2], reqs[3]];
      assert reqs[2..][1..] == [Frame] && [Frame][1..] == [];
      var none: set<u32> := {};
      assert none + {cmd.button} == {cmd.button} && {cmd.button} - {cmd.button} == none;
      assert HeldAfter([Frame], none) == HeldAfter([], none);
      assert HeldAfter(reqs[2..], {cmd.button}) == HeldAfter([Frame], none);
      assert HeldAfter(reqs[1..], {cmd.button}) == HeldAfter(reqs[2..], {cmd.button});
    } else {
      assert reqs[1..] == [Frame] && [Frame][1..] == [];
      assert HeldAfter([Frame], {}) == HeldAfter([], {});
    }
  }

  /** What holds between any two commands: see `TranscriptSafe`. */
  predicate SafeSoFar(reqs: seq<Request>, clock: u32) {
    && MotionsInside(reqs)
    && Ticking(Stamps(reqs), 0)
    && LastStamp(Stamps(reqs), 0) == clock
    && HeldAfter(reqs, {}) == Held({})
  }

  lemma SafeStep(reqs: seq<Request>, cmd: Cmd, clock: u32, ex: u32, ey: u32)
    requires SafeSoFar(reqs, clock) && ex >= 1 && ey >= 1
    ensures SafeSoFar(reqs + Emitted(cmd, clock, ex, ey), ClockAfter(cmd, clock))
  {
    hide Stamps, Ticking, HeldAfter, ClockAfter;
    var more := Emitted(cmd, clock, ex, ey);
    EmittedStamps(cmd, clock, ex, ey);
    EmittedHeld(cmd, clock, ex, ey);
    StampsConcat(reqs, more);
    TickingConcat(Stamps(reqs), Stamps(more), 0);
    HeldConcat(reqs, more, {});
    assert MotionsInside(more);
  }

  /**
   * Trace safety, between any two commands of any run: absolute motion is inside the extents, every stamp is
   * later than all before it until the counter is pinned, every press has been released and no button is held.
   */
  lemma {:induction false} TranscriptSafe(log: seq<Entry>)
    requires WellLogged(log)
    ensures SafeSoFar(Transcript(log), ClockOf(log))
  {
    hide Emitted, ClockAfter;
    if log != [] {
      var front, last := log[..|log| - 1], log[|log| - 1];
      forall k | 0 <= k < |front| ensures front[..k] == log[..k] && front[k] == log[k] {}
      TranscriptSafe(front);
      SafeStep(Transcript(front), last.cmd, last.clock, last.ex, last.ey);
    }
  }

  /** No stamp is smaller than one before it, and two are equal only at the maximum. */
  lemma StampsRise(log: seq<Entry>, i: nat, j: nat)
    requires WellLogged(log) && i < j < |Stamps(Transcript(log))|
    ensures var stamps := Stamps(Transcript(log)); stamps[i] < stamps[j] || stamps[j] == U32_MAX
  {
    TranscriptSafe(log);
    TickingRises(Stamps(Transcript(log)), 0, i, j);
  }

  lemma {:induction false} TickingCounts(stamps: seq<u32>, from: u32, i: nat)
    requires Ticking(stamps, from) && i < |stamps|
    ensures stamps[i] == if from + i + 1 < U32_MAX then from + i + 1 else U32_MAX
  {
    if i > 0 { TickingCounts(stamps[1..], stamps[0], i - 1); }
  }

  /** The stamps count from one, up to the maximum. */
  lemma StampCounts(log: seq<Entry>, i: nat)
    requires WellLogged(log) && i < |Stamps(Transcript(log))|
    ensures Stamps(Transcript(log))[i] == if i + 1 < U32_MAX then i + 1 else U32_MAX
  {
    TranscriptSafe(log);
    TickingCounts(Stamps(Transcript(log)), 0, i);
  }

  function Gap(a: int, b: int): nat {
    if a >= b then a - b else b - a
  }

  lemma ClampNearest(v: i32, extent: u32, u: u32)
    requires u <= extent
    ensures Gap(Clamp(v, extent), v) <= Gap(u, v)
  {
  }

  /** Of all positions on the screen, an absolute move is sent to the one nearest to what was asked, on each axis. */
  lemma MotionNearest(e: Entry, at: nat)
    requires e.cmd.MoveAbs? && IsExtent(e.ex, e.outputs, true) && IsExtent(e.ey, e.outputs, false)
    requires var reqs := Emitted(e.cmd, e.clock, e.ex, e.ey); at < |reqs| && reqs[at].MotionAbsolute?
    ensures var req := Emitted(e.cmd, e.clock, e.ex, e.ey)[at];
      && IsExtent(req.xExtent, e.outputs, true) && IsExtent(req.yExtent, e.outputs, false)
      && (forall u: u32 | u <= req.xExtent :: Gap(req.px, e.cmd.x) <= Gap(u, e.cmd.x))
      && (forall u: u32 | u <= req.yExtent :: Gap(req.py, e.cmd.y) <= Gap(u, e.cmd.y))
  {
    hide Clamp, IsExtent;
    forall u: u32 | u <= e.ex ensures Gap(Clamp(e.cmd.x, e.ex), e.cmd.x) <= Gap(u, e.cmd.x) {
      ClampNearest(e.cmd.x, e.ex, u);
    }
    forall u: u32 | u <= e.ey ensures Gap(Clamp(e.cmd.y, e.ey), e.cmd.y) <= Gap(u, e.cmd.y) {
      ClampNearest(e.cmd.y, e.ey, u);
    }
  }

  // ---- what the pointer does -----------------------------------------------------------------------

  datatype Press = Press(button: u32, x: int, y: int)

  /** Where the pointer is, and the buttons it has pressed and where. */
  datatype Cursor = Cursor(x: int, y: int, presses: seq<Press>)

  /** The compositor's side: requests gather in `next` and take effect at the frame that follows them. */
  function Played(reqs: seq<Request>, shown: Cursor, next: Cursor): Cursor
    decreases |reqs|
  {
    if reqs == [] then shown
    else match reqs[0]
      case MotionAbsolute(_, px, py, _, _) => Played(reqs[1..], shown, next.(x := px, y := py))
      case Motion(_, dx, dy) => Played(reqs[1..], shown, next.(x := next.x + dx, y := next.y + dy))
      case Button(_, button, pressed) =>
        Played(reqs[1..], shown,
               if pressed then next.(presses := next.presses + [Press(button, next.x, next.y)]) else next)
      case Frame => Played(reqs[1..], next, next)
      case Destroy => shown
  }

  /** The position between zero and the extent that is nearest to `v`. */
  function Nearest(v: int, extent: nat): nat {
    if v <= 0 then 0 else if v >= extent then extent else v
  }

  /** What the command asks for, under the extents it is handled with. */
  function Obeyed(e: Entry, c: Cursor): Cursor {
    match e.cmd
    case MoveAbs(x, y) => c.(x := Nearest(x, e.ex), y := Nearest(y, e.ey))
    case MoveRel(dx, dy) => c.(x := c.x + dx, y := c.y + dy)
    case Click(button) => c.(presses := c.presses + [Press(button, c.x, c.y)])
  }

  function AllObeyed(log: seq<Entry>, c: Cursor): Cursor {
    if log == [] then c else Obeyed(log[|log| - 1], AllObeyed(log[..|log| - 1], c))
  }

  /** No request is left waiting for its frame. */
  predicate Framed(reqs: seq<Request>) {
    reqs == [] || (reqs[|reqs| - 1].Frame? && forall k | 0 <= k < |reqs| :: !reqs[k].Destroy?)
  }

  lemma {:induction false} PlayedConcat(a: seq<Request>, b: seq<Request>, shown: Cursor, next: Cursor)
    requires Framed(a) && (a == [] ==> shown == next)
    ensures Played(a + b, shown, next) == Played(b, Played(a, shown, next), Played(a, shown, next))
    decreases |a|
  {
    if a == [] {
      assert a + b == b;
    } else {
      var rest := a[1..];
      assert (a + b)[0] == a[0] && (a + b)[1..] == rest + b;
      assert rest == [] ==> a[0].Frame?;
      match a[0]
      case MotionAbsolute(_, px, py, _, _) => PlayedConcat(rest, b, shown, next.(x := px, y := py));
      case Motion(_, dx, dy) => PlayedConcat(rest, b, shown, next.(x := next.x + dx, y := next.y + dy));
      case Button(_, button, pressed) =>
        PlayedConcat(rest, b, shown,
                     if pressed then next.(presses := next.presses + [Press(button, next.x, next.y)]) else next);
      case Frame => PlayedConcat(rest, b, next, next);
      case Destroy =>
    }
  }

  lemma FrameAfter(r: Request, rest: seq<Request>, c: Cursor)
    requires !r.Frame? && !r.Destroy?
    ensures Played([r, Frame] + rest, c, c) == Played(rest, Played([r, Frame], c, c), Played([r, Frame], c, c))
    ensures Played([r, Frame], c, c) == match r
      case MotionAbsolute(_, px, py, _, _) => c.(x := px, y := py)
      case Motion(_, dx, dy) => c.(x := c.x + dx, y := c.y + dy)
      case Button(_, button, pressed) =>
        if pressed then c.(presses := c.presses + [Press(button, c.x, c.y)]) else c
  {
    PlayedConcat([r, Frame], rest, c, c);
    assert [r, Frame][1..] == [Frame] && [Frame][1..] == [];
  }

  lemma EntryObeyed(e: Entry, c: Cursor)
    ensures Played(Emitted(e.cmd, e.clock, e.ex, e.ey), c, c) == Obeyed(e, c)
    ensures Framed(Emitted(e.cmd, e.clock, e.ex, e.ey))
  {
    var reqs := Emitted(e.cmd, e.clock, e.ex, e.ey);
    if e.cmd.Click? {
      assert reqs == [reqs[0], Frame] + [reqs[2], Frame];
      FrameAfter(reqs[0], [reqs[2], Frame], c);
      FrameAfter(reqs[2], [], Obeyed(e, c));
    } else {
      assert reqs == [reqs[0], Frame];
      FrameAfter(reqs[0], [], c);
    }
  }

  lemma {:induction false} TranscriptFramed(log: seq<Entry>)
    ensures Framed(Transcript(log))
  {
    if log != [] {
      TranscriptFramed(log[..|log| - 1]);
      var last := log[|log| - 1];
      EntryObeyed(last, Cursor(0, 0, []));
    }
  }

  /**
   * The requests do what the commands say: played on the compositor's side they leave the pointer where the commands
   * in turn put it, absolute moves at the nearest point inside the extents and relative ones by their own steps, with
   * each click's button pressed once where the pointer was.
   */
  lemma {:induction false} TranscriptObeyed(log: seq<Entry>, c: Cursor)
    ensures Played(Transcript(log), c, c) == AllObeyed(log, c)
  {
    hide Emitted, Obeyed;
    if log != [] {
      var front, last := log[..|log| - 1], log[|log| - 1];
      TranscriptObeyed(front, c);
      TranscriptFramed(front);
      PlayedConcat(Transcript(front), Emitted(last.cmd, last.clock, last.ex, last.ey), c, c);
      EntryObeyed(last, AllObeyed(front, c));
    }
  }

  // ---- what the extents reach ----------------------------------------------------------------------

  /** The extents reach the right and bottom edge of every output, as far as those are 32-bit numbers. */
  lemma ExtentReaches(outputs: map<nat, Geom>, ex: u32, ey: u32, id: nat)
    requires IsExtent(ex, outputs, true) && IsExtent(ey, outputs, false) && id in outputs
    ensures outputs[id].x + outputs[id].width <= I32_MAX ==> outputs[id].x + outputs[id].width <= ex
    ensures outputs[id].y + outputs[id].height <= I32_MAX ==> outputs[id].y + outputs[id].height <= ey
  {
    assert FarEdge(outputs[id], true) <= ex && FarEdge(outputs[id], false) <= ey;
  }

  // ---- what output events mean ----------------------------------------------------------------------

  /** Only a position or a current mode can change an extent. */
  lemma QuietEvent(outputs: map<nat, Geom>, ev: OutputEvent, e: u32, horizontal: bool)
    requires ev.Other? || (ev.Mode? && !ev.current)
    ensures IsExtent(e, ApplyOutput(outputs, ev), horizontal) <==> IsExtent(e, outputs, horizontal)
  {
    var outputs' := ApplyOutput(outputs, ev);
    forall id | id in outputs' ensures id in outputs || outputs'[id] == UNPLACED {}
    forall id | id in outputs ensures id in outputs' && outputs'[id] == outputs[id] {}
    assert FarEdge(UNPLACED, horizontal) == 0;
  }

  /** A position and a current mode, in either order, place an output; the others stay. */
  lemma OutputPlaced(outputs: map<nat, Geom>, id: nat, x: i32, y: i32, width: i32, height: i32)
    ensures var position, mode := Geometry(id, x, y), Mode(id, width, height, true);
      var placed := outputs[id := Geom(x, y, width, height)];
      && ApplyOutput(ApplyOutput(outputs, position), mode) == placed
      && ApplyOutput(ApplyOutput(outputs, mode), position) == placed
  {
  }
}
