/**
 * The status poller (`RidenStatusClass`): from the main loop it reads the
 * live values of the power supply at most every 200 ms and pushes them to
 * the status web page's websocket clients.
 *
 * The millisecond clock is the `now` parameter of `Loop`, the number of
 * websocket clients is `connections`, and whether a Modbus read succeeds is
 * `readOk`; the reads and the broadcast are logged as `StatusCall`s.
 */
module RidenStatus {
  import opened Arduino

  const Modulus := 0x1_0000_0000
  /** The polling interval of `loop`, in milliseconds. */
  const IntervalMs := 200

  datatype StatusCall = GetAllValues | GetLiveValues | SendStatus

  /** `_started` and the file-level `lasttime`. */
  datatype PollerState = PollerState(started: bool, lasttime: uint32)

  /**
   * `now - lasttime` on `unsigned long`: the number of milliseconds that
   * take the 32-bit clock from `last` to `now`, counting across a wrap.
   */
  function Elapsed(now: uint32, last: uint32): (r: uint32)
    ensures (last + r) % Modulus == now
  {
    (now - last) % Modulus
  }

  /** The 32-bit difference is the real time between two readings less than 2^32 ms apart. */
  lemma ElapsedIsRealTime(t0: nat, t1: nat)
    requires t0 <= t1 < t0 + Modulus
    ensures Elapsed(t1 % Modulus, t0 % Modulus) == t1 - t0
  {
    var q0, q1 := t0 / Modulus, t1 / Modulus;
    var r0, r1 := t0 % Modulus, t1 % Modulus;
    assert t1 - t0 == (q1 - q0) * Modulus + (r1 - r0);
    if r1 >= r0 {
      assert q1 == q0;
    } else {
      assert q1 == q0 + 1;
      assert (r1 - r0) % Modulus == r1 - r0 + Modulus;
    }
  }

  /** One `loop` call: the new state and the calls it makes. */
  function LoopStep(s: PollerState, now: uint32, connections: nat, readOk: bool): (r: (PollerState, seq<StatusCall>))
  {
    if Elapsed(now, s.lasttime) > IntervalMs then
      var calls := if s.started && connections > 0 then [GetLiveValues] + (if readOk then [SendStatus] else []) else [];
      (s.(lasttime := now), calls)
    else
      (s, [])
  }

  /**
   * When the interval has passed, `lasttime` moves to `now` whatever else
   * happens; the status goes out exactly when the poller is started, has a
   * client and the live read succeeded; `loop` never does a full read.
   */
  lemma LoopStepGating(s: PollerState, now: uint32, connections: nat, readOk: bool)
    ensures var (s', calls) := LoopStep(s, now, connections, readOk);
      && s'.started == s.started
      && (s'.lasttime == if Elapsed(now, s.lasttime) > IntervalMs then now else s.lasttime)
      && (SendStatus in calls <==>
            Elapsed(now, s.lasttime) > IntervalMs && s.started && connections > 0 && readOk)
      && (GetLiveValues in calls <==> Elapsed(now, s.lasttime) > IntervalMs && s.started && connections > 0)
      && GetAllValues !in calls
  {
  }

  datatype Tick = Tick(time: nat, connections: nat, readOk: bool)

  /** A sequence of `loop` calls at the given real times (the clock reads them modulo 2^32). */
  function Run(s: PollerState, ticks: seq<Tick>): (PollerState, seq<StatusCall>)
    decreases |ticks|
  {
    if ticks == [] then (s, [])
    else
      var first := LoopStep(s, ticks[0].time % Modulus, ticks[0].connections, ticks[0].readOk);
      var rest := Run(first.0, ticks[1..]);
      (rest.0, first.1 + rest.1)
  }

  /**
   * The throttle: after `loop` has acted at real time `t0`, no call of
   * `loop` within the next 200 ms does anything, however many there are.
   */
  lemma {:induction false} QuietWindow(s: PollerState, t0: nat, ticks: seq<Tick>)
    requires s.lasttime == t0 % Modulus
    requires forall i :: 0 <= i < |ticks| ==> t0 <= ticks[i].time <= t0 + IntervalMs
    ensures Run(s, ticks) == (s, [])
  {
    if ticks != [] {
      ElapsedIsRealTime(t0, ticks[0].time);
      assert LoopStep(s, ticks[0].time % Modulus, ticks[0].connections, ticks[0].readOk) == (s, []);
      assert forall i :: 0 <= i < |ticks[1..]| ==> ticks[1..][i] == ticks[i + 1];
      QuietWindow(s, t0, ticks[1..]);
      var rest := Run(s, ticks[1..]);
      var none: seq<StatusCall> := [];
      assert rest.1 == none && none + rest.1 == none;
      assert Run(s, ticks) == (rest.0, none + rest.1);
    }
  }

  /** Once the interval has passed by the real clock, the next `loop` acts, even across a wrap. */
  lemma ActsAfterInterval(s: PollerState, t0: nat, t1: nat, connections: nat, readOk: bool)
    requires s.lasttime == t0 % Modulus
    requires t0 + IntervalMs < t1 < t0 + Modulus
    ensures LoopStep(s, t1 % Modulus, connections, readOk).0.lasttime == t1 % Modulus
  {
    ElapsedIsRealTime(t0, t1);
  }

  class StatusPoller {
    var started: bool
    var lasttime: uint32
    var calls: seq<StatusCall>

    /** `_started` is false and `lasttime` starts at 0. */
    constructor ()
      ensures !started && lasttime == 0 && calls == []
    {
      started := false;
      lasttime := 0;
      calls := [];
    }

    function State(): PollerState
      reads this
    {
      PollerState(started, lasttime)
    }

    /** `updateStatus`: a full read when `full`, a live read otherwise; returns the read's result. */
    method UpdateStatus(full: bool, readOk: bool) returns (ok: bool)
      modifies this
      ensures ok == readOk && State() == old(State())
      ensures calls == old(calls) + [if full then GetAllValues else GetLiveValues]
    {
      calls := calls + [if full then GetAllValues else GetLiveValues];
      ok := readOk;
    }

    /** `sendStatus`: one broadcast of the last values read. */
    method SendStatus()
      modifies this
      ensures State() == old(State()) && calls == old(calls) + [StatusCall.SendStatus]
    {
      calls := calls + [StatusCall.SendStatus];
    }

    /** `loop`. */
    method Loop(now: uint32, connections: nat, readOk: bool)
      modifies this
      ensures State() == LoopStep(old(State()), now, connections, readOk).0
      ensures calls == old(calls) + LoopStep(old(State()), now, connections, readOk).1
    {
      if Elapsed(now, lasttime) > IntervalMs {
        if started && connections > 0 {
          var ok := UpdateStatus(false, readOk);
          if ok {
            SendStatus();
          }
        }
        lasttime := now;
      }
    }

    /** `start`: marks the poller started and does one full read, whose result is ignored. */
    method Start(readOk: bool)
      modifies this
      ensures started && lasttime == old(lasttime)
      ensures calls == old(calls) + [GetAllValues]
    {
      started := true;
      var _ := UpdateStatus(true, readOk);
    }

    /** `end`: clears `_started` only. */
    method End()
      modifies this
      ensures !started && lasttime == old(lasttime) && calls == old(calls)
    {
      started := false;
    }
  }
}
