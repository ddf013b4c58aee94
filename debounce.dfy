/**
 * The debounce gate of the properties window. Every change of a watermark
 * property (text, font, colour, size, opacity, rotation, tile gap) fires
 * `watermark_callbacks`, which starts a background update only when no update
 * thread is running and more than `DebounceSec` seconds have passed since the
 * last start. A rejected callback is dropped, not queued.
 *
 * The gate is first modelled as a pure state machine (`GateStep`, `RunGate`,
 * `Launches`) whose properties are proved as lemmas; the `Properties` class
 * then keeps its two fields equal to that machine run over its event history.
 * `LegacyProperties` is the earlier window, which has no gate at all.
 */
module Debounce {
  import opened Subsequences

  /** Minimum number of seconds between two update launches. */
  const DebounceSec: real := 0.5

  /** `thread_is_running` and `last_execution_time`. */
  datatype Gate = Gate(running: bool, last: real)

  /** The gate as the window's constructor leaves it. */
  const Initial := Gate(false, 0.0)

  /** What the gate reacts to: a property callback at wall-clock time `now`,
   *  or an update thread entering or leaving its update function. */
  datatype GateEvent = Callback(now: real) | Entered | Left

  /** The callback condition: no thread running and the quiet period is over. */
  predicate Admits(g: Gate, now: real)
  {
    !g.running && now - g.last > DebounceSec
  }

  /**
   * One event. A callback never touches the running flag and moves `last`
   * only when admitted, then forward to the callback's time; thread entry and
   * exit set and clear the flag and keep `last`.
   */
  function GateStep(g: Gate, e: GateEvent): (r: Gate)
    ensures e.Callback? ==> r.running == g.running
    ensures r.last != g.last ==> e.Callback? && Admits(g, e.now) && r.last == e.now
    ensures r.last >= g.last
    ensures e.Entered? ==> r.running
    ensures e.Left? ==> !r.running
  {
    match e
    case Callback(now) => if Admits(g, now) then g.(last := now) else g
    case Entered => g.(running := true)
    case Left => g.(running := false)
  }

  /** The gate after a history of events: `last` never moves backwards. */
  function RunGate(g: Gate, events: seq<GateEvent>): (r: Gate)
    ensures r.last >= g.last
    decreases |events|
  {
    if events == [] then g else RunGate(GateStep(g, events[0]), events[1..])
  }

  /** The launch one event causes: its time when it is an admitted callback. */
  function LaunchOf(g: Gate, e: GateEvent): seq<real>
  {
    if e.Callback? && Admits(g, e.now) then [e.now] else []
  }

  /**
   * The times at which update threads are started, at most one per event.
   * Their spacing and their origin in callbacks are the lemmas below.
   */
  function Launches(g: Gate, events: seq<GateEvent>): (l: seq<real>)
    ensures |l| <= |events|
    decreases |events|
  {
    if events == [] then []
    else LaunchOf(g, events[0]) + Launches(GateStep(g, events[0]), events[1..])
  }

  /** The times of all callbacks, admitted or not. */
  function CallbackTimes(events: seq<GateEvent>): seq<real>
    decreases |events|
  {
    if events == [] then []
    else (if events[0].Callback? then [events[0].now] else []) + CallbackTimes(events[1..])
  }

  /** One callback per time, in order: what the traces of one variable write fire. */
  function Callbacks(times: seq<real>): (r: seq<GateEvent>)
    ensures |r| == |times|
    ensures forall i :: 0 <= i < |times| ==> r[i] == Callback(times[i])
  {
    seq(|times|, i requires 0 <= i < |times| => Callback(times[i]))
  }

  /** Each time is more than `DebounceSec` after the one before, the first after `start`. */
  predicate SpacedFrom(start: real, times: seq<real>)
    decreases |times|
  {
    times == [] || (times[0] - start > DebounceSec && SpacedFrom(times[0], times[1..]))
  }

  /** Running the machine over a history and then one more event. */
  lemma {:induction false} RunSnoc(g: Gate, h: seq<GateEvent>, e: GateEvent)
    ensures RunGate(g, h + [e]) == GateStep(RunGate(g, h), e)
    ensures Launches(g, h + [e]) == Launches(g, h) + LaunchOf(RunGate(g, h), e)
    decreases |h|
  {
    if h == [] {
      assert h + [e] == [e];
      assert [e][1..] == [];
    } else {
      assert (h + [e])[0] == h[0];
      assert (h + [e])[1..] == h[1..] + [e];
      RunSnoc(GateStep(g, h[0]), h[1..], e);
    }
  }

  /** Running the machine over two histories in turn is running it over both. */
  lemma {:induction false} RunAppend(g: Gate, h1: seq<GateEvent>, h2: seq<GateEvent>)
    ensures RunGate(g, h1 + h2) == RunGate(RunGate(g, h1), h2)
    ensures Launches(g, h1 + h2) == Launches(g, h1) + Launches(RunGate(g, h1), h2)
    decreases |h1|
  {
    if h1 == [] {
      assert h1 + h2 == h2;
    } else {
      assert (h1 + h2)[0] == h1[0];
      assert (h1 + h2)[1..] == h1[1..] + h2;
      RunAppend(GateStep(g, h1[0]), h1[1..], h2);
    }
  }

  /** The callbacks of one more time extend those of the times before it. */
  lemma CallbacksSnoc(times: seq<real>, i: int)
    requires 0 <= i < |times|
    ensures Callbacks(times[..i + 1]) == Callbacks(times[..i]) + [Callback(times[i])]
  {
  }

  /** After the callbacks of `times` follow history `h0`, the launches among them
   *  are the new launches and the gate is where running the callbacks leaves it. */
  lemma GapWriteOutcome(h0: seq<GateEvent>, times: seq<real>, count: nat)
    requires |Launches(Initial, h0 + Callbacks(times))| == |Launches(Initial, h0)| + count
    ensures var c := Callbacks(times);
      RunGate(Initial, h0 + c) == RunGate(RunGate(Initial, h0), c) &&
      Launches(Initial, h0 + c) == Launches(Initial, h0) + Launches(RunGate(Initial, h0), c) &&
      count == |Launches(RunGate(Initial, h0), c)|
  {
    RunAppend(Initial, h0, Callbacks(times));
  }

  /** The gate's `last` field is the time of the most recent launch. */
  lemma {:induction false} LastIsLatestLaunch(g: Gate, events: seq<GateEvent>)
    ensures var l := Launches(g, events);
      RunGate(g, events).last == if l == [] then g.last else l[|l| - 1]
    decreases |events|
  {
    if events != [] {
      LastIsLatestLaunch(GateStep(g, events[0]), events[1..]);
    }
  }

  /** Consecutive launches are more than half a second apart, and the first
   *  is more than half a second after the gate's recorded last launch. */
  lemma {:induction false} LaunchesSpaced(g: Gate, events: seq<GateEvent>)
    ensures SpacedFrom(g.last, Launches(g, events))
    decreases |events|
  {
    if events != [] {
      var g' := GateStep(g, events[0]);
      LaunchesSpaced(g', events[1..]);
      if LaunchOf(g, events[0]) != [] {
        var l := Launches(g, events);
        assert l[0] == events[0].now;
        assert l[1..] == Launches(g', events[1..]);
      } else {
        assert g'.last == g.last;
        assert Launches(g, events) == Launches(g', events[1..]);
      }
    }
  }

  /** Spacing of consecutive times implies spacing of every pair. */
  lemma {:induction false} SpacedPairwise(start: real, times: seq<real>)
    requires SpacedFrom(start, times)
    ensures forall i :: 0 <= i < |times| ==> times[i] - start > DebounceSec
    ensures forall i, j :: 0 <= i < j < |times| ==> times[j] - times[i] > DebounceSec
    decreases |times|
  {
    if times != [] {
      var tail := times[1..];
      SpacedPairwise(times[0], tail);
      assert forall j :: 0 < j < |times| ==> times[j] == tail[j - 1];
    }
  }

  /** No two update threads are ever started within `DebounceSec` of each other. */
  lemma LaunchesNeverClose(g: Gate, events: seq<GateEvent>)
    ensures var l := Launches(g, events);
      forall i, j :: 0 <= i < j < |l| ==> l[j] - l[i] > DebounceSec
  {
    LaunchesSpaced(g, events);
    SpacedPairwise(g.last, Launches(g, events));
  }

  /** Every launch happens at the time of a callback, in order: a rejected
   *  callback is dropped and never replayed later. */
  lemma {:induction false} LaunchesAreCallbacks(g: Gate, events: seq<GateEvent>)
    ensures IsSubseq(Launches(g, events), CallbackTimes(events))
    decreases |events|
  {
    if events == [] {
    } else {
      var g' := GateStep(g, events[0]);
      var rest := Launches(g', events[1..]);
      var restTimes := CallbackTimes(events[1..]);
      LaunchesAreCallbacks(g', events[1..]);
      var l := Launches(g, events);
      var c := CallbackTimes(events);
      if LaunchOf(g, events[0]) != [] {
        assert l == [events[0].now] + rest;
        assert c == [events[0].now] + restTimes;
        assert l[1..] == rest && c[1..] == restTimes;
      } else if events[0].Callback? {
        assert l == rest;
        assert c[1..] == restTimes;
      } else {
        assert l == rest && c == restTimes;
      }
    }
  }

  /** While a thread is running, every callback is dropped, however late. */
  lemma {:induction false} RunningDropsAll(g: Gate, times: seq<real>)
    requires g.running
    ensures Launches(g, Callbacks(times)) == []
    ensures RunGate(g, Callbacks(times)) == g
    decreases |times|
  {
    if times != [] {
      var c := Callbacks(times);
      assert c[1..] == Callbacks(times[1..]);
      RunningDropsAll(g, times[1..]);
    }
  }

  /** The running flag does not cover the time between `start()` and the
   *  thread entering its update function: two callbacks a second apart both
   *  launch although no thread has begun in between. */
  lemma TwoLaunchesBeforeAnyThreadBegins()
    ensures Launches(Initial, [Callback(1.0), Callback(2.0)]) == [1.0, 2.0]
  {
    var e := [Callback(1.0), Callback(2.0)];
    assert e[1..] == [Callback(2.0)];
    assert Launches(Gate(false, 1.0), [Callback(2.0)]) == [2.0];
  }

  /**
   * The debounced properties window. `updates` counts calls of the update
   * function; `gapTraces` counts the write traces registered on the tile-gap
   * variable, one more for every switch to a tiled mode. The ghost counters
   * say how many threads were started but have not yet entered the update
   * function (`pending`) and how many are inside it (`active`).
   */
  class Properties {
    var threadIsRunning: bool
    var lastExecutionTime: real
    var sizeShown: real
    var tile: string
    var gapShown: bool
    var gapTraces: nat
    var updates: nat
    ghost var history: seq<GateEvent>
    ghost var pending: nat
    ghost var active: nat

    function GateState(): Gate
      reads this
    {
      Gate(threadIsRunning, lastExecutionTime)
    }

    ghost predicate Valid()
      reads this
    {
      GateState() == RunGate(Initial, history) && (threadIsRunning ==> active > 0)
    }

    /** The update threads started so far. */
    ghost function LaunchTimes(): seq<real>
      reads this
    {
      Launches(Initial, history)
    }

    constructor(size: real)
      ensures Valid()
      ensures !threadIsRunning && lastExecutionTime == 0.0
      ensures sizeShown == size && tile == "Single" && !gapShown && gapTraces == 0
      ensures updates == 0 && history == [] && pending == 0 && active == 0
    {
      threadIsRunning := false;
      lastExecutionTime := 0.0;
      sizeShown := size;
      tile := "Single";
      gapShown := false;
      gapTraces := 0;
      updates := 0;
      history := [];
      pending := 0;
      active := 0;
    }

    /** `watermark_callbacks` at time `now`, the size slider reading `size`. */
    method WatermarkCallbacks(now: real, size: real) returns (launched: bool)
      requires Valid()
      modifies this
      ensures Valid()
      ensures launched <==> Admits(old(GateState()), now)
      ensures GateState() == GateStep(old(GateState()), Callback(now))
      ensures history == old(history) + [Callback(now)]
      ensures LaunchTimes() == old(LaunchTimes()) + (if launched then [now] else [])
      ensures sizeShown == (if launched then size else old(sizeShown))
      ensures pending == old(pending) + (if launched then 1 else 0)
      ensures active == old(active) && updates == old(updates)
      ensures tile == old(tile) && gapShown == old(gapShown) && gapTraces == old(gapTraces)
    {
      RunSnoc(Initial, history, Callback(now));
      launched := !threadIsRunning && now - lastExecutionTime > DebounceSec;
      if launched {
        sizeShown := size;
        lastExecutionTime := now;
        pending := pending + 1;
      }
      history := history + [Callback(now)];
    }

    /** A started thread enters `threaded_update_function` and calls the update function. */
    method ThreadBegins()
      requires Valid() && pending > 0
      modifies this
      ensures Valid()
      ensures threadIsRunning && lastExecutionTime == old(lastExecutionTime)
      ensures history == old(history) + [Entered]
      ensures pending == old(pending) - 1 && active == old(active) + 1
      ensures updates == old(updates) + 1
      ensures sizeShown == old(sizeShown) && tile == old(tile)
      ensures gapShown == old(gapShown) && gapTraces == old(gapTraces)
    {
      RunSnoc(Initial, history, Entered);
      threadIsRunning := true;
      updates := updates + 1;
      pending := pending - 1;
      active := active + 1;
      history := history + [Entered];
    }

    /** The update function returns and the thread clears the flag. */
    method ThreadEnds()
      requires Valid() && active > 0
      modifies this
      ensures Valid()
      ensures !threadIsRunning && lastExecutionTime == old(lastExecutionTime)
      ensures history == old(history) + [Left]
      ensures active == old(active) - 1 && pending == old(pending)
      ensures updates == old(updates) && sizeShown == old(sizeShown) && tile == old(tile)
      ensures gapShown == old(gapShown) && gapTraces == old(gapTraces)
    {
      RunSnoc(Initial, history, Left);
      threadIsRunning := false;
      active := active - 1;
      history := history + [Left];
    }

    /** A write of `mode` to the tile variable: the gate runs first, then the
     *  gap controls are shown (registering one more gap trace) or hidden. */
    method OnTileWrite(mode: string, now: real, size: real) returns (launched: bool)
      requires Valid()
      modifies this
      ensures Valid()
      ensures tile == mode
      ensures launched <==> Admits(old(GateState()), now)
      ensures GateState() == GateStep(old(GateState()), Callback(now))
      ensures history == old(history) + [Callback(now)]
      ensures mode != "Single" ==> gapShown && gapTraces == old(gapTraces) + 1
      ensures mode == "Single" ==> !gapShown && gapTraces == old(gapTraces)
      ensures LaunchTimes() == old(LaunchTimes()) + (if launched then [now] else [])
      ensures sizeShown == (if launched then size else old(sizeShown))
      ensures pending == old(pending) + (if launched then 1 else 0)
      ensures active == old(active) && updates == old(updates)
    {
      tile := mode;
      launched := WatermarkCallbacks(now, size);
      if tile != "Single" {
        gapShown := true;
        gapTraces := gapTraces + 1;
      } else {
        gapShown := false;
      }
    }

    /** A write to the tile-gap variable: each registered trace calls
     *  `watermark_callbacks` in turn, the i-th at `times[i]`. */
    method OnGapWrite(times: seq<real>, size: real) returns (launchedCount: nat)
      requires Valid() && |times| == gapTraces
      modifies this
      ensures Valid()
      ensures history == old(history) + Callbacks(times)
      ensures GateState() == RunGate(old(GateState()), Callbacks(times))
      ensures launchedCount == |Launches(old(GateState()), Callbacks(times))|
      ensures LaunchTimes() == old(LaunchTimes()) + Launches(old(GateState()), Callbacks(times))
      ensures sizeShown == (if launchedCount > 0 then size else old(sizeShown))
      ensures pending == old(pending) + launchedCount
      ensures tile == old(tile) && gapShown == old(gapShown) && gapTraces == old(gapTraces)
      ensures updates == old(updates) && active == old(active)
    {
      ghost var h0 := history;
      launchedCount := 0;
      var i := 0;
      while i < |times|
        invariant 0 <= i <= |times|
        invariant Valid()
        invariant history == h0 + Callbacks(times[..i])
        invariant |LaunchTimes()| == |old(LaunchTimes())| + launchedCount
        invariant sizeShown == (if launchedCount > 0 then size else old(sizeShown))
        invariant pending == old(pending) + launchedCount
        invariant tile == old(tile) && gapShown == old(gapShown) && gapTraces == old(gapTraces)
        invariant updates == old(updates) && active == old(active)
      {
        CallbacksSnoc(times, i);
        var launched := WatermarkCallbacks(times[i], size);
        if launched {
          launchedCount := launchedCount + 1;
        }
        i := i + 1;
      }
      assert times[..i] == times;
      GapWriteOutcome(h0, times, launchedCount);
    }
  }

  /**
   * The earlier properties window: every property write calls the update
   * function directly, with no gate, and the tile gap's traces call the
   * same text callback.
   */
  class LegacyProperties {
    var sizeShown: real
    var tile: string
    var gapShown: bool
    var gapTraces: nat
    var updates: nat

    constructor(size: real)
      ensures sizeShown == size && tile == "Single" && !gapShown && gapTraces == 0 && updates == 0
    {
      sizeShown := size;
      tile := "Single";
      gapShown := false;
      gapTraces := 0;
      updates := 0;
    }

    /** `text_callbacks`: refresh the size label, then update. */
    method TextCallbacks(size: real)
      modifies this
      ensures sizeShown == size && updates == old(updates) + 1
      ensures tile == old(tile) && gapShown == old(gapShown) && gapTraces == old(gapTraces)
    {
      sizeShown := size;
      updates := updates + 1;
    }

    /** `tile_callbacks`: update first, then show or hide the gap controls. */
    method OnTileWrite(mode: string)
      modifies this
      ensures tile == mode && updates == old(updates) + 1 && sizeShown == old(sizeShown)
      ensures mode != "Single" ==> gapShown && gapTraces == old(gapTraces) + 1
      ensures mode == "Single" ==> !gapShown && gapTraces == old(gapTraces)
    {
      tile := mode;
      updates := updates + 1;
      if tile != "Single" {
        gapShown := true;
        gapTraces := gapTraces + 1;
      } else {
        gapShown := false;
      }
    }

    /** A write to the tile gap runs the update once per registered trace. */
    method OnGapWrite(size: real)
      modifies this
      ensures updates == old(updates) + old(gapTraces)
      ensures sizeShown == (if old(gapTraces) > 0 then size else old(sizeShown))
      ensures tile == old(tile) && gapShown == old(gapShown) && gapTraces == old(gapTraces)
    {
      var i := 0;
      while i < gapTraces
        invariant 0 <= i <= gapTraces == old(gapTraces)
        invariant updates == old(updates) + i
        invariant sizeShown == (if i > 0 then size else old(sizeShown))
        invariant tile == old(tile) && gapShown == old(gapShown)
      {
        TextCallbacks(size);
        i := i + 1;
      }
    }
  }
}
