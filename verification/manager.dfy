/** The on-demand stream manager: a capture process piped into an encoder
    process, started when a client asks for the HLS playlist or a segment
    and stopped by a monitor after an idle timeout. Every method is one
    atomic transition of a state record; time is an integer number of
    seconds passed in by the caller, and processes are entries of a list
    that only grows, each with an alive flag. */
module StreamManager {
  import opened Wrappers
  import opened Text
  import opened Segments

  /** `stream_to_pipe.py` or the `ffmpeg` encoder it feeds. */
  datatype ProcKind = Capture | Encoder

  /** A spawned process and whether it is still running (`poll() is None`). */
  datatype Proc = Proc(kind: ProcKind, alive: bool)

  /** The manager's fields: `running`, `last_activity`, `restart_count`, the
      handles `process` (the encoder) and `_python_proc` (the capture), as
      indices into `procs`, the list of every process ever spawned. */
  datatype State = State(
    running: bool,
    lastActivity: int,
    restartCount: nat,
    process: Option<nat>,
    pythonProc: Option<nat>,
    procs: seq<Proc>)

  /** The state `__init__` sets up. */
  const Init: State := State(false, 0, 0, None, None, [])

  /** The handle names a process that is still running. */
  predicate Alive(procs: seq<Proc>, handle: Option<nat>) {
    handle.Some? && handle.value < |procs| && procs[handle.value].alive
  }

  /** `is_streaming`: running, with an encoder handle whose process has not
      exited. */
  function IsStreaming(s: State): (b: bool)
    ensures b <==> s.running && s.process.Some? && s.process.value < |s.procs| && s.procs[s.process.value].alive
  {
    s.running && Alive(s.procs, s.process)
  }

  /** `start_stream`: while streaming, only the activity time moves;
      otherwise a new capture and encoder pair is spawned, the restart count
      goes up by one, and both handles point at the new pair. Processes the
      old handles named are left as they are. It always returns True, so
      only the new state is modelled. */
  function StartStream(s: State, now: int): (r: State)
    ensures IsStreaming(r) && r.running && r.lastActivity == now
    ensures IsStreaming(s) ==> r == s.(lastActivity := now)
    ensures !IsStreaming(s) ==>
      && r.restartCount == s.restartCount + 1
      && r.procs == s.procs + [Proc(Capture, true), Proc(Encoder, true)]
      && r.pythonProc == Some(|s.procs|)
      && r.process == Some(|s.procs| + 1)
  {
    if IsStreaming(s) then s.(lastActivity := now)
    else
      var n := |s.procs|;
      s.(restartCount := s.restartCount + 1,
         procs := s.procs + [Proc(Capture, true), Proc(Encoder, true)],
         pythonProc := Some(n),
         process := Some(n + 1),
         running := true,
         lastActivity := now)
  }

  /** Terminates the process a handle names, if any. */
  function Kill(procs: seq<Proc>, handle: Option<nat>): (r: seq<Proc>)
    ensures |r| == |procs|
    ensures !Alive(r, handle)
    ensures forall i :: 0 <= i < |r| ==> r[i].kind == procs[i].kind
    ensures forall i :: 0 <= i < |r| && handle != Some(i) ==> r[i] == procs[i]
  {
    if handle.Some? && handle.value < |procs| then procs[handle.value := Proc(procs[handle.value].kind, false)]
    else procs
  }

  /** `stop_stream`: nothing when not running; otherwise both processes are
      terminated and both handles cleared. */
  function StopStream(s: State): (r: State)
    ensures !s.running ==> r == s
    ensures s.running ==> !r.running && r.process.None? && r.pythonProc.None?
    ensures s.running ==> !Alive(r.procs, s.process) && !Alive(r.procs, s.pythonProc)
    ensures |r.procs| == |s.procs|
    ensures forall i :: 0 <= i < |r.procs| ==> r.procs[i].kind == s.procs[i].kind
    ensures forall i :: (0 <= i < |r.procs| && s.process != Some(i) && s.pythonProc != Some(i)
      ==> r.procs[i] == s.procs[i])
    ensures r.lastActivity == s.lastActivity && r.restartCount == s.restartCount
  {
    if !s.running then s
    else s.(running := false, procs := Kill(Kill(s.procs, s.pythonProc), s.process),
            process := None, pythonProc := None)
  }

  /** `touch_activity`: the activity time is now; nothing else changes. */
  function TouchActivity(s: State, now: int): (r: State)
    ensures r.lastActivity == now
    ensures r.(lastActivity := s.lastActivity) == s
  {
    s.(lastActivity := now)
  }

  /** The process with index `pid` exits on its own (the camera hangs up, the
      encoder fails). */
  function ProcessExit(s: State, pid: nat): (r: State)
    ensures r.(procs := s.procs) == s && |r.procs| == |s.procs|
    ensures pid < |s.procs| ==> !r.procs[pid].alive
    ensures forall i :: 0 <= i < |s.procs| && i != pid ==> r.procs[i] == s.procs[i]
    ensures forall i :: 0 <= i < |s.procs| ==> r.procs[i].kind == s.procs[i].kind
  {
    if pid < |s.procs| then s.(procs := s.procs[pid := Proc(s.procs[pid].kind, false)]) else s
  }

  /** The idle test of the monitor: strictly more than `timeout` seconds
      since the last activity. */
  predicate Idle(s: State, now: int, timeout: int) {
    now - s.lastActivity > timeout
  }

  /** One iteration of `_monitor_loop`, as written: when idle it clears
      `running` itself, so the `stop_stream` it then calls returns at once.
      The handles stay set and no process is terminated; the segments are
      cleaned up. Gives the new state and the deleted segments. */
  function MonitorTick(s: State, now: int, timeout: int, dir: seq<Entry>): (r: (State, seq<Entry>))
    ensures r.0.running <==> s.running && !Idle(s, now, timeout)
    ensures r.0 == s.(running := r.0.running)
    ensures r.1 == if s.running && Idle(s, now, timeout) && s.process.Some? then Cleanup(dir) else []
  {
    if !s.running then (s, [])
    else
      var checked := if Idle(s, now, timeout) then s.(running := false) else s;
      if !checked.running && checked.process.Some? then (StopStream(checked), Cleanup(dir))
      else (checked, [])
  }

  /** The monitor iteration as evidently intended: an idle stream is stopped
      by `stop_stream`, which clears `running` and terminates both processes. */
  function CorrectedMonitorTick(s: State, now: int, timeout: int, dir: seq<Entry>): (r: (State, seq<Entry>))
    ensures r.0.running <==> s.running && !Idle(s, now, timeout)
    ensures s.running && Idle(s, now, timeout) ==>
      && r.0.process.None? && r.0.pythonProc.None?
      && !Alive(r.0.procs, s.process) && !Alive(r.0.procs, s.pythonProc)
      && r.1 == Cleanup(dir)
    ensures !(s.running && Idle(s, now, timeout)) ==> r == (s, [])
  {
    if s.running && Idle(s, now, timeout) then (StopStream(s), Cleanup(dir)) else (s, [])
  }

  /** The reply of a GET: the status document, or the file the path names. */
  datatype Reply = StatusReply(body: string) | FileReply(path: string)

  /** The JSON body of `/status`. */
  function StatusBody(streaming: bool): string {
    "{\"streaming\": " + (if streaming then "true" else "false") + "}"
  }

  /** The request asks for the HLS playlist or a segment. */
  predicate TriggersStream(path: string) {
    Contains(Lower(path), ".m3u8") || Contains(Lower(path), ".ts")
  }

  /** `do_GET`: a request for the playlist or a segment counts as activity
      and starts the stream unless it is already streaming; `/status`
      reports whether it is streaming; anything else is served as a file. */
  function HandleGet(s: State, path: string, now: int): (r: (State, Reply))
    ensures TriggersStream(path) ==> IsStreaming(r.0) && r.0.lastActivity == now
    ensures TriggersStream(path) ==>
      r.0.restartCount == if IsStreaming(s) then s.restartCount else s.restartCount + 1
    ensures !TriggersStream(path) ==> r.0 == s
    ensures Lower(path) == "/status" ==> r == (s, StatusReply(StatusBody(IsStreaming(s))))
    ensures Lower(path) != "/status" ==> r.1 == FileReply(path)
  {
    var lowered := Lower(path);
    var next :=
      if Contains(lowered, ".m3u8") || Contains(lowered, ".ts") then
        var touched := TouchActivity(s, now);
        if IsStreaming(touched) then touched else StartStream(touched, now)
      else s;
    if lowered == "/status" then
      StatusHasNoSegment();
      (next, StatusReply(StatusBody(IsStreaming(next))))
    else (next, FileReply(path))
  }

  /** `/status` names neither a playlist nor a segment. */
  lemma StatusHasNoSegment()
    ensures !Contains("/status", ".m3u8") && !Contains("/status", ".ts")
  {
    var status := "/status";
    assert '.' !in status;
    forall k: nat
      ensures !OccursAt(status, ".ts", k)
    {
      if k + 3 <= |status| {
        assert status[k..k + 3][0] == status[k];
      }
    }
    forall k: nat
      ensures !OccursAt(status, ".m3u8", k)
    {
      if k + 5 <= |status| {
        assert status[k..k + 5][0] == status[k];
      }
    }
  }

  /** The events the manager sees: the HTTP server's calls, the monitor's
      iterations, the shutdown handler's stop, and processes exiting. */
  datatype Event =
    | Start(now: int)
    | Stop
    | Touch(now: int)
    | Tick(now: int, timeout: int, dir: seq<Entry>)
    | Exit(pid: nat)
    | Get(path: string, now: int)

  /** One event on the manager as written. */
  function Apply(s: State, e: Event): State {
    match e
    case Start(now) => StartStream(s, now)
    case Stop => StopStream(s)
    case Touch(now) => TouchActivity(s, now)
    case Tick(now, timeout, dir) => MonitorTick(s, now, timeout, dir).0
    case Exit(pid) => ProcessExit(s, pid)
    case Get(path, now) => HandleGet(s, path, now).0
  }

  /** One event on the manager with the corrected monitor. */
  function ApplyCorrected(s: State, e: Event): State {
    match e
    case Tick(now, timeout, dir) => CorrectedMonitorTick(s, now, timeout, dir).0
    case _ => Apply(s, e)
  }

  function Run(s: State, es: seq<Event>): State
    decreases |es|
  {
    if |es| == 0 then s else Run(Apply(s, es[0]), es[1..])
  }

  function RunCorrected(s: State, es: seq<Event>): State
    decreases |es|
  {
    if |es| == 0 then s else RunCorrected(ApplyCorrected(s, es[0]), es[1..])
  }

  /** A running encoder: a live process of the encoder kind. */
  predicate LiveEncoder(s: State, i: int) {
    0 <= i < |s.procs| && s.procs[i].alive && s.procs[i].kind == Encoder
  }

  /** The handles name processes of their kind: `process` an encoder and
      `_python_proc` a capture. */
  predicate Consistent(s: State) {
    && (s.process.Some? ==> s.process.value < |s.procs| && s.procs[s.process.value].kind == Encoder)
    && (s.pythonProc.Some? ==> s.pythonProc.value < |s.procs| && s.procs[s.pythonProc.value].kind == Capture)
  }

  /** Every event of the manager as written keeps the handles consistent. */
  lemma ApplyKeepsConsistent(s: State, e: Event)
    requires Consistent(s)
    ensures Consistent(Apply(s, e))
  {
  }

  /** Every state the manager as written reaches has consistent handles. */
  lemma {:induction false} RunKeepsConsistent(s: State, es: seq<Event>)
    requires Consistent(s)
    ensures Consistent(Run(s, es))
    decreases |es|
  {
    if |es| > 0 {
      ApplyKeepsConsistent(s, es[0]);
      RunKeepsConsistent(Apply(s, es[0]), es[1..]);
    }
  }

  /** At most one pipeline: every running encoder is the one the `process`
      handle names, and a stopped manager holds no handle. */
  predicate OnePipeline(s: State) {
    && (forall i :: 0 <= i < |s.procs| && LiveEncoder(s, i) ==> s.process == Some(i))
    && (!s.running ==> s.process.None?)
  }

  /** Calling `start_stream` twice counts one restart at most: the second
      call finds the stream running. */
  lemma StartTwiceCountsOnce(s: State, t1: int, t2: int)
    ensures StartStream(StartStream(s, t1), t2).restartCount
         == if IsStreaming(s) then s.restartCount else s.restartCount + 1
    ensures StartStream(StartStream(s, t1), t2).procs == StartStream(s, t1).procs
  {
  }

  /** The defect as written: an idle tick leaves the encoder handle set and
      its process running while `is_streaming` reports false, so the next
      request spawns a second encoder beside the first. */
  lemma IdleTickLeavesPipelineAlive(s: State, now: int, timeout: int, dir: seq<Entry>, later: int)
    requires Consistent(s)
    requires IsStreaming(s) && Idle(s, now, timeout)
    ensures var t := MonitorTick(s, now, timeout, dir).0;
      && !IsStreaming(t)
      && t.process == s.process && Alive(t.procs, t.process)
      && var u := StartStream(t, later);
      && LiveEncoder(u, s.process.value) && LiveEncoder(u, |s.procs| + 1)
      && s.process.value != |s.procs| + 1
      && !OnePipeline(u)
  {
    var t := MonitorTick(s, now, timeout, dir).0;
    assert t == s.(running := false);
    StartSpawnsEncoder(t, later);
  }

  /** Starting when not streaming adds a running encoder after every
      existing process and leaves those as they were. */
  lemma StartSpawnsEncoder(t: State, now: int)
    requires !IsStreaming(t)
    ensures var u := StartStream(t, now);
      && LiveEncoder(u, |t.procs| + 1) && u.process == Some(|t.procs| + 1)
      && forall i :: 0 <= i < |t.procs| ==> u.procs[i] == t.procs[i]
  {
  }

  /** A playlist or segment request while not streaming starts the stream
      with the activity time set to the request's time. */
  lemma GetStartsWhenIdle(s: State, path: string, now: int)
    requires TriggersStream(path) && !IsStreaming(s)
    ensures Apply(s, Get(path, now)) == StartStream(TouchActivity(s, now), now)
  {
  }

  /** A monitor tick as written only ever changes `running`. */
  lemma TickOnlyClearsRunning(s: State, now: int, timeout: int, dir: seq<Entry>)
    ensures Apply(s, Tick(now, timeout, dir)) == s.(running := s.running && !Idle(s, now, timeout))
  {
  }

  /** A run is its first event followed by the rest. */
  lemma RunStep(s: State, es: seq<Event>)
    requires |es| > 0
    ensures Run(s, es) == Run(Apply(s, es[0]), es[1..])
  {
  }

  /** The playlist the players poll triggers the stream. */
  lemma PlaylistTriggers()
    ensures TriggersStream("/stream.m3u8")
  {
    assert OccursAt(Lower("/stream.m3u8"), ".m3u8", 7);
  }

  /** The defect on a run with the default 30-second timeout: a playlist or
      segment request at 0 s, a monitor tick at 30 s (not yet idle), one at
      31 s, another request at 32 s leave two encoders running after two
      starts. */
  lemma IdleRestartRunsTwoEncoders(path: string)
    requires TriggersStream(path)
    ensures var s := Run(Init, [Get(path, 0), Tick(30, 30, []), Tick(31, 30, []), Get(path, 32)]);
      && LiveEncoder(s, 1) && LiveEncoder(s, 3) && s.restartCount == 2
  {
    var e1, e2, e3, e4 := Get(path, 0), Tick(30, 30, []), Tick(31, 30, []), Get(path, 32);
    var s1 := StartStream(TouchActivity(Init, 0), 0);
    assert s1.procs == [Proc(Capture, true), Proc(Encoder, true)] && s1.lastActivity == 0;
    var s3 := s1.(running := false);
    var s4 := StartStream(TouchActivity(s3, 32), 32);
    assert s4.procs == s1.procs + [Proc(Capture, true), Proc(Encoder, true)];
    GetStartsWhenIdle(Init, path, 0);
    TickOnlyClearsRunning(s1, 30, 30, []);
    TickOnlyClearsRunning(s1, 31, 30, []);
    GetStartsWhenIdle(s3, path, 32);
    RunStep(Init, [e1, e2, e3, e4]);
    assert [e1, e2, e3, e4][1..] == [e2, e3, e4];
    RunStep(s1, [e2, e3, e4]);
    assert [e2, e3, e4][1..] == [e3, e4];
    RunStep(s1, [e3, e4]);
    assert [e3, e4][1..] == [e4];
    RunStep(s3, [e4]);
  }

  /** Every event of the corrected manager keeps at most one pipeline. */
  lemma CorrectedStepKeepsOnePipeline(s: State, e: Event)
    requires OnePipeline(s)
    ensures OnePipeline(ApplyCorrected(s, e))
  {
    match e
    case Start(now) => StartKeepsOnePipeline(s, now);
    case Stop =>
    case Touch(now) =>
    case Tick(now, timeout, dir) =>
    case Exit(pid) =>
    case Get(path, now) =>
      if TriggersStream(path) && !IsStreaming(s) {
        StartKeepsOnePipeline(TouchActivity(s, now), now);
      }
  }

  /** Starting only spawns when no encoder of the old pair is running. */
  lemma StartKeepsOnePipeline(s: State, now: int)
    requires OnePipeline(s)
    ensures OnePipeline(StartStream(s, now))
  {
    if !IsStreaming(s) {
      var r := StartStream(s, now);
      forall i | LiveEncoder(r, i)
        ensures r.process == Some(i)
      {
        if i < |s.procs| {
          assert LiveEncoder(s, i);
        }
      }
    }
  }

  /** The corrected manager, from its initial state, never runs two
      encoders at once. */
  lemma {:induction false} CorrectedManagerKeepsOnePipeline(s: State, es: seq<Event>)
    requires OnePipeline(s)
    ensures OnePipeline(RunCorrected(s, es))
    ensures forall i, j :: LiveEncoder(RunCorrected(s, es), i) && LiveEncoder(RunCorrected(s, es), j) ==> i == j
    decreases |es|
  {
    if |es| > 0 {
      CorrectedStepKeepsOnePipeline(s, es[0]);
      CorrectedManagerKeepsOnePipeline(ApplyCorrected(s, es[0]), es[1..]);
    }
  }

  /** The initial state has no pipeline. */
  lemma InitOnePipeline()
    ensures OnePipeline(Init)
  {
  }
}
