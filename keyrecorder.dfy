/**
 * The key-capture recorder both revisions share: a buffer of formatted
 * lines, a running flag and the listener object of the last start. The
 * listener is an opaque handle; timestamps and key texts arrive already
 * formatted. Each callback, start, stop and read is one atomic step.
 */
module KeyRecorder {
  import opened Wrappers

  /** How many of the newest lines a read returns. */
  const Limit := 1000

  /** A keyboard listener object, known only by identity. */
  datatype Handle = Handle(id: nat)

  datatype State = State(buffer: seq<string>, running: bool, listener: Option<Handle>)

  /** The state at import time: no lines, not running, no listener. */
  const Idle := State([], false, None)

  /** One recorded line: the timestamp, the revision's separator, the key's text. */
  function Line(ts: string, sep: string, key: string): string
  {
    ts + sep + key
  }

  /**
   * start: nothing happens when the keyboard library is missing or the
   * recorder already runs; otherwise the fresh listener `h` is stored and
   * the recorder runs. The buffer is never touched.
   */
  function StartStep(s: State, loaded: bool, h: Handle): (r: State)
    ensures r.buffer == s.buffer
    ensures r.running == (s.running || loaded)
    ensures r.listener == if !loaded || s.running then s.listener else Some(h)
  {
    if !loaded || s.running then s else State(s.buffer, true, Some(h))
  }

  /** stop: the listener, if any, is told to stop and stays stored; the recorder no longer runs. */
  function StopStep(s: State): (r: State)
    ensures !r.running && r.buffer == s.buffer && r.listener == s.listener
  {
    State(s.buffer, false, s.listener)
  }

  /** The key callback: exactly one line more, at the end. */
  function PressStep(s: State, line: string): (r: State)
    ensures r.buffer == s.buffer + [line]
    ensures r.running == s.running && r.listener == s.listener
  {
    State(s.buffer + [line], s.running, s.listener)
  }

  /** `buf[-Limit:]`: the newest `Limit` lines, or all of them when there are fewer. */
  function Tail(buf: seq<string>): (r: seq<string>)
    ensures |r| == if |buf| <= Limit then |buf| else Limit
    ensures r == buf[|buf| - |r|..]
  {
    if |buf| <= Limit then buf else buf[|buf| - Limit..]
  }

  /** The control commands of the `/keylogger/<cmd>` route; anything else is a 400. */
  datatype Control = Start | Stop

  function KeylogCommand(cmd: string): (r: Option<Control>)
    ensures r == Some(Start) <==> cmd == "start"
    ensures r == Some(Stop) <==> cmd == "stop"
    ensures r == None <==> cmd != "start" && cmd != "stop"
  {
    if cmd == "start" then Some(Start)
    else if cmd == "stop" then Some(Stop)
    else None
  }

  // ----------------------------------------------------------------------
  // Runs of calls

  /**
   * One thing that happens to the recorder. A key press reaches the
   * callback only while a listener runs, that is while `running` holds.
   */
  datatype Event = StartCall(h: Handle) | StopCall | KeyDown(line: string)

  function Step(s: State, loaded: bool, e: Event): State
  {
    match e
    case StartCall(h) => StartStep(s, loaded, h)
    case StopCall => StopStep(s)
    case KeyDown(line) => if s.running then PressStep(s, line) else s
  }

  /** The state after `evs`, in order, from `s`. */
  function Run(s: State, loaded: bool, evs: seq<Event>): State
    decreases |evs|
  {
    if evs == [] then s else Step(Run(s, loaded, evs[..|evs| - 1]), loaded, evs[|evs| - 1])
  }

  /** The last start or stop call in `evs`, if any. */
  function LastControl(evs: seq<Event>): (r: Option<Event>)
    ensures r.Some? ==> !r.value.KeyDown?
    decreases |evs|
  {
    if evs == [] then None
    else if evs[|evs| - 1].KeyDown? then LastControl(evs[..|evs| - 1])
    else Some(evs[|evs| - 1])
  }

  /** Running records a listener. */
  predicate Consistent(s: State)
  {
    s.running ==> s.listener.Some?
  }

  // ----------------------------------------------------------------------
  // Lemmas

  /**
   * With the keyboard library present, after any run the recorder runs
   * exactly when the last start or stop call was a start (or, with no such
   * call, when it ran to begin with).
   */
  lemma {:induction false} RunningIffLastStart(s: State, evs: seq<Event>)
    ensures Run(s, true, evs).running <==>
      (match LastControl(evs)
       case None => s.running
       case Some(e) => e.StartCall?)
    decreases |evs|
  {
    if evs != [] {
      RunningIffLastStart(s, evs[..|evs| - 1]);
    }
  }

  /** Without the keyboard library a recorder that does not run never changes. */
  lemma {:induction false} NotLoadedInert(s: State, evs: seq<Event>)
    requires !s.running
    ensures Run(s, false, evs) == s
    decreases |evs|
  {
    if evs != [] {
      NotLoadedInert(s, evs[..|evs| - 1]);
    }
  }

  /** A running recorder always holds its listener. */
  lemma {:induction false} ConsistentRun(s: State, loaded: bool, evs: seq<Event>)
    requires Consistent(s)
    ensures Consistent(Run(s, loaded, evs))
    decreases |evs|
  {
    if evs != [] {
      ConsistentRun(s, loaded, evs[..|evs| - 1]);
    }
  }

  /** Lines are only ever appended: the old buffer is a prefix of the new one. */
  lemma {:induction false} BufferGrows(s: State, loaded: bool, evs: seq<Event>)
    ensures var b := Run(s, loaded, evs).buffer;
      |s.buffer| <= |b| && b[..|s.buffer|] == s.buffer
    decreases |evs|
  {
    if evs != [] {
      BufferGrows(s, loaded, evs[..|evs| - 1]);
    }
  }

  /**
   * After a stop, nothing changes until the next start: further stops and
   * key presses leave the state as the stop left it.
   */
  lemma {:induction false} QuietAfterStop(s: State, loaded: bool, pre: seq<Event>, post: seq<Event>)
    requires forall i :: 0 <= i < |post| ==> !post[i].StartCall?
    ensures Run(s, loaded, pre + [StopCall] + post) == Run(s, loaded, pre + [StopCall])
    decreases |post|
  {
    if post != [] {
      var front := post[..|post| - 1];
      assert (pre + [StopCall] + post)[..|pre + [StopCall] + post| - 1] == pre + [StopCall] + front;
      QuietAfterStop(s, loaded, pre, front);
      var t := pre + [StopCall];
      assert t[..|t| - 1] == pre;
      assert !Run(s, loaded, t).running;
    } else {
      assert pre + [StopCall] + post == pre + [StopCall];
    }
  }

  /** A second start, while the first still runs, changes nothing, not even the listener. */
  lemma StartIdempotent(s: State, loaded: bool, h: Handle, h': Handle)
    ensures StartStep(StartStep(s, loaded, h), loaded, h') == StartStep(s, loaded, h)
  {
  }

  /** Stopping twice is stopping once. */
  lemma StopIdempotent(s: State)
    ensures StopStep(StopStep(s)) == StopStep(s)
  {
  }

  /** A read returns the newest lines in append order: after a press its last line is the new one. */
  lemma TailNewest(buf: seq<string>, line: string)
    ensures var t := Tail(buf + [line]); t != [] && t[|t| - 1] == line
    ensures |buf| < Limit ==> Tail(buf + [line]) == buf + [line]
  {
  }
}
