/** The exit hook: one registration per process, and a SIGTERM that is followed by a SIGKILL only after the
deadline.  Times are in milliseconds.  The clock and the liveness of the postmaster are a world that runs on all
the while, between any two steps of the hook: `alive(t)` says whether a probe at time t finds the process running. */
module Shutdown {
  import opened Wrappers

  const POLL_INTERVAL: nat := 50
  const POST_SIGKILL_GRACE: nat := 100

  datatype Signal = Term | Kill
  datatype Sent = Sent(pid: int, signal: Signal, at: nat)

  /** A clock, and a record of what was done to the process. */
  class World {
    const alive: nat -> bool
    var now: nat
    var probes: seq<nat>
    var signals: seq<Sent>

    constructor (alive: nat -> bool)
      ensures this.alive == alive && now == 0 && probes == [] && signals == []
    {
      this.alive := alive;
      now, probes, signals := 0, [], [];
    }

    /** Any time may go by before the thread does its next step. */
    method Pass()
      modifies this`now
      ensures now >= old(now)
    {
      var delay: nat :| 0 <= delay;
      now := now + delay;
    }

    method ReadClock() returns (reading: nat)
      modifies this`now
      ensures old(now) <= reading == now
    {
      Pass();
      reading := now;
    }

    /** A sleep lasts at least as long as asked, and as much longer as the scheduler pleases. */
    method Sleep(duration: nat)
      modifies this`now
      ensures now >= old(now) + duration
    {
      now := now + duration;
      Pass();
    }

    /** Only a positive number names a single process. */
    method ProcessIsRunning(pid: int) returns (running: bool)
      modifies this`now, this`probes
      ensures now >= old(now)
      ensures pid <= 0 ==> !running && probes == old(probes)
      ensures pid > 0 ==> running == alive(now) && probes == old(probes) + [now]
    {
      if pid <= 0 {
        return false;
      }
      Pass();
      probes := probes + [now];
      running := alive(now);
    }

    method Send(pid: int, signal: Signal)
      modifies this`now, this`signals
      ensures now >= old(now) && signals == old(signals) + [Sent(pid, signal, now)]
    {
      Pass();
      signals := signals + [Sent(pid, signal, now)];
    }
  }

  /** The most probes a wait of the given length makes. */
  function ProbeLimit(timeout: nat): nat {
    (timeout + POLL_INTERVAL - 1) / POLL_INTERVAL + 1
  }

  /** One wait: the reading that the deadline is counted from, the probes, and the reading taken after each probe
  that found the process running. */
  datatype Wait = Wait(start: nat, probes: seq<nat>, readings: seq<nat>)

  /** The i-th probe found the process running, the reading after it was before the deadline, and the next probe came
  after a sleep. */
  ghost predicate Turn(alive: nat -> bool, deadline: nat, wait: Wait, i: nat)
    requires i + 1 < |wait.probes| && i < |wait.readings|
  {
    alive(wait.probes[i]) && wait.probes[i] <= wait.readings[i] < deadline
    && wait.readings[i] + POLL_INTERVAL <= wait.probes[i + 1]
  }

  ghost predicate Turns(alive: nat -> bool, deadline: nat, wait: Wait) {
    && |wait.readings| <= |wait.probes| <= |wait.readings| + 1
    && (wait.probes != [] ==> wait.start <= wait.probes[0])
    && forall i :: 0 <= i < |wait.probes| - 1 ==> Turn(alive, deadline, wait, i)
  }

  /** The last probe found the process gone, or was followed by a reading at or past the deadline. */
  ghost predicate Waited(alive: nat -> bool, timeout: nat, wait: Wait, exited: bool) {
    && Turns(alive, wait.start + timeout, wait) && wait.probes != []
    && |wait.readings| == |wait.probes| - (if exited then 1 else 0)
    && var n, last := |wait.probes| - 1, wait.probes[|wait.probes| - 1];
       if exited then !alive(last)
       else alive(last) && last <= wait.readings[n] && wait.start + timeout <= wait.readings[n]
  }

  lemma {:induction false} ProbesAreSpaced(probes: seq<nat>, i: nat)
    requires i < |probes| && forall j :: 0 < j < |probes| ==> probes[j - 1] + POLL_INTERVAL <= probes[j]
    ensures probes[i] >= probes[0] + POLL_INTERVAL * i
  {
    if i > 0 {
      ProbesAreSpaced(probes, i - 1);
    }
  }

  /** The number of probes is bounded by the timeout alone, whatever the scheduler does. */
  lemma {:induction false} FewProbes(alive: nat -> bool, timeout: nat, wait: Wait, exited: bool)
    requires Waited(alive, timeout, wait, exited)
    ensures |wait.probes| <= (timeout + 49) / 50 + 1
    ensures |wait.probes| <= ProbeLimit(timeout)
    ensures forall i :: 0 < i < |wait.probes| ==> wait.probes[i - 1] + 50 <= wait.probes[i]
  {
    Spacing(alive, timeout, wait, exited);
    if |wait.probes| >= 2 {
      LastGap(alive, timeout, wait, exited);
    }
    LimitIs(|wait.probes|, timeout);
  }

  lemma {:induction false} LastGap(alive: nat -> bool, timeout: nat, wait: Wait, exited: bool)
    requires Waited(alive, timeout, wait, exited) && |wait.probes| >= 2
    ensures POLL_INTERVAL * (|wait.probes| - 2) < timeout
  {
    var i := |wait.probes| - 2;
    Spacing(alive, timeout, wait, exited);
    ProbesAreSpaced(wait.probes, i);
    assert Turn(alive, wait.start + timeout, wait, i);
  }

  lemma {:induction false} Spacing(alive: nat -> bool, timeout: nat, wait: Wait, exited: bool)
    requires Waited(alive, timeout, wait, exited)
    ensures forall j :: 0 < j < |wait.probes| ==> wait.probes[j - 1] + POLL_INTERVAL <= wait.probes[j]
  {
    forall j | 0 < j < |wait.probes|
      ensures wait.probes[j - 1] + POLL_INTERVAL <= wait.probes[j]
    {
      assert Turn(alive, wait.start + timeout, wait, j - 1);
    }
  }

  lemma {:induction false} LimitIs(n: nat, timeout: nat)
    requires n >= 2 ==> POLL_INTERVAL * (n - 2) < timeout
    ensures n <= ProbeLimit(timeout)
  {
  }

  /** Between two turns: all probes so far found the process running before the deadline. */
  ghost predicate StillRunning(alive: nat -> bool, deadline: nat, wait: Wait, now: nat) {
    && |wait.readings| == |wait.probes| && wait.start <= now
    && Turns(alive, deadline, wait)
    && (wait.probes != [] ==>
          var n := |wait.probes| - 1;
          && alive(wait.probes[n]) && wait.probes[n] <= wait.readings[n] < deadline
          && wait.readings[n] + POLL_INTERVAL <= now)
  }

  lemma {:induction false} NextProbe(alive: nat -> bool, deadline: nat, wait: Wait, now: nat, probe: nat)
    requires StillRunning(alive, deadline, wait, now) && now <= probe
    ensures Turns(alive, deadline, wait.(probes := wait.probes + [probe]))
  {
    var next := wait.(probes := wait.probes + [probe]);
    forall i | 0 <= i < |next.probes| - 1
      ensures Turn(alive, deadline, next, i)
    {
      if i < |wait.probes| - 1 {
        assert Turn(alive, deadline, wait, i);
      }
    }
  }

  lemma {:induction false} NextReading(alive: nat -> bool, deadline: nat, wait: Wait, reading: nat)
    requires Turns(alive, deadline, wait) && |wait.probes| == |wait.readings| + 1
    ensures Turns(alive, deadline, wait.(readings := wait.readings + [reading]))
  {
    var next := wait.(readings := wait.readings + [reading]);
    forall i | 0 <= i < |next.probes| - 1
      ensures Turn(alive, deadline, next, i)
    {
      assert Turn(alive, deadline, wait, i);
    }
  }

  method WaitForExit(w: World, pid: int, timeout: nat) returns (exited: bool, ghost wait: Wait)
    requires pid > 0
    modifies w`now, w`probes
    ensures Waited(w.alive, timeout, wait, exited) && old(w.now) <= wait.start
    ensures w.probes == old(w.probes) + wait.probes && |wait.probes| <= ProbeLimit(timeout)
    ensures w.now >= if exited then wait.probes[|wait.probes| - 1] else wait.readings[|wait.readings| - 1]
  {
    var start := w.ReadClock();
    var deadline := start + timeout;
    wait := Wait(start, [], []);
    while true
      invariant w.probes == old(w.probes) + wait.probes && wait.start == start
      invariant StillRunning(w.alive, deadline, wait, w.now)
      decreases if wait.probes == [] then 1 else 0, deadline - w.now
    {
      ghost var before := w.now;
      var running := w.ProcessIsRunning(pid);
      NextProbe(w.alive, deadline, wait, before, w.now);
      wait := wait.(probes := wait.probes + [w.now]);
      if !running {
        exited := true;
        break;
      }
      var reading := w.ReadClock();
      NextReading(w.alive, deadline, wait, reading);
      wait := wait.(readings := wait.readings + [reading]);
      if reading >= deadline {
        exited := false;
        break;
      }
      w.Sleep(POLL_INTERVAL);
    }
    FewProbes(w.alive, timeout, wait, exited);
  }

  /** Stopping a process: when TERM was sent, the wait and how it ended, and when KILL was sent if it was. */
  datatype Stop = Stop(termAt: nat, wait: Wait, exited: bool, killAt: nat)

  ghost predicate Stopped(alive: nat -> bool, timeout: nat, stop: Stop) {
    && Waited(alive, timeout, stop.wait, stop.exited)
    && |stop.wait.probes| <= ProbeLimit(timeout)
    && stop.termAt <= stop.wait.start
    && (!stop.exited ==> stop.wait.readings[|stop.wait.readings| - 1] <= stop.killAt)
  }

  /** The signals sent: a SIGTERM, and a SIGKILL exactly when the wait gave up. */
  function Escalation(pid: int, stop: Stop): seq<Sent> {
    [Sent(pid, Term, stop.termAt)] + if stop.exited then [] else [Sent(pid, Kill, stop.killAt)]
  }

  method StopPostmaster(w: World, pid: int, timeout: nat) returns (ghost stop: Stop)
    requires pid > 0
    modifies w
    ensures Stopped(w.alive, timeout, stop) && old(w.now) <= stop.termAt
    ensures w.probes == old(w.probes) + stop.wait.probes
    ensures w.signals == old(w.signals) + Escalation(pid, stop)
    ensures !stop.exited ==> w.now >= stop.killAt + 100
  {
    w.Send(pid, Term);
    ghost var termAt := w.now;
    var exited, wait := WaitForExit(w, pid, timeout);
    if exited {
      stop := Stop(termAt, wait, true, 0);
      return;
    }
    w.Send(pid, Kill);
    stop := Stop(termAt, wait, false, w.now);
    w.Sleep(POST_SIGKILL_GRACE);
  }

  /** All signals go to the one process.  A KILL is among them if and only if every probe found it running, and then
  comes second and at least the timeout after the TERM. */
  lemma {:induction false} KillMeansTimedOut(alive: nat -> bool, pid: int, timeout: nat, stop: Stop)
    requires Stopped(alive, timeout, stop)
    ensures var sent, probes := Escalation(pid, stop), stop.wait.probes;
      && (forall k :: 0 <= k < |sent| ==> sent[k].pid == pid)
      && ((exists k :: 0 <= k < |sent| && sent[k].signal == Kill) <==>
            forall i :: 0 <= i < |probes| ==> alive(probes[i]))
    ensures var sent := Escalation(pid, stop);
      && sent[0] == Sent(pid, Term, stop.termAt)
      && forall k :: 0 <= k < |sent| && sent[k].signal == Kill ==> k == 1 && sent[1].at >= sent[0].at + timeout
  {
    var probes := stop.wait.probes;
    forall i | 0 <= i < |probes| - 1
      ensures alive(probes[i])
    {
      assert Turn(alive, stop.wait.start + timeout, stop.wait, i);
    }
    if !stop.exited {
      assert Escalation(pid, stop)[1].signal == Kill;
    }
  }

  // ---------- registration ----------

  /** The state kept for the callback; the settings are known only by the data directory they name. */
  datatype ShutdownState = ShutdownState(dataDir: int, timeout: nat, cleanupMode: int)

  /** One call to register, and what atexit would answer. */
  datatype Attempt = Attempt(state: ShutdownState, atexitOk: bool)

  predicate NoneAccepted(attempts: seq<Attempt>) {
    forall i :: 0 <= i < |attempts| ==> !attempts[i].atexitOk
  }

  /** The first attempt that atexit accepts. */
  function FirstAccepted(attempts: seq<Attempt>): (r: Option<ShutdownState>)
    ensures r.None? <==> NoneAccepted(attempts)
    ensures r.Some? ==>
      exists i :: 0 <= i < |attempts| && attempts[i] == Attempt(r.value, true) && NoneAccepted(attempts[..i])
  {
    if attempts == [] then None
    else if attempts[0].atexitOk then Some(attempts[0].state)
    else
      var rest := FirstAccepted(attempts[1..]);
      assert forall i :: 0 < i < |attempts| ==> attempts[i] == attempts[1..][i - 1];
      assert forall i :: 0 < i < |attempts| ==> attempts[..i] == [attempts[0]] + attempts[1..][..i - 1];
      rest
  }

  lemma {:induction false} FirstStays(attempts: seq<Attempt>, next: Attempt)
    ensures FirstAccepted(attempts + [next]) ==
      if FirstAccepted(attempts).Some? || !next.atexitOk then FirstAccepted(attempts) else Some(next.state)
  {
    if attempts == [] {
      assert [next][1..] == [];
    } else {
      assert (attempts + [next])[1..] == attempts[1..] + [next];
      FirstStays(attempts[1..], next);
    }
  }

  class ShutdownHook {
    var slot: Option<ShutdownState>
    /** The callbacks the C runtime holds. */
    var registered: nat
    ghost var attempts: seq<Attempt>

    ghost predicate Valid()
      reads this
    {
      slot == FirstAccepted(attempts) && registered == (if slot.Some? then 1 else 0)
    }

    constructor ()
      ensures Valid() && attempts == []
    {
      slot, registered, attempts := None, 0, [];
    }

    /** The slot is filled only after atexit accepts, so a refusal leaves it free for a later call. */
    method RegisterShutdownHook(state: ShutdownState, atexitOk: bool) returns (ok: bool)
      requires Valid()
      modifies this
      ensures Valid() && attempts == old(attempts) + [Attempt(state, atexitOk)]
      ensures ok == slot.Some?
    {
      FirstStays(attempts, Attempt(state, atexitOk));
      attempts := attempts + [Attempt(state, atexitOk)];
      if slot.Some? {
        return true;
      }
      if !atexitOk {
        return false;
      }
      registered := registered + 1;
      slot := Some(state);
      return true;
    }

    /** What exiting does, given the positive number that the pid file holds, if it holds one.  Signals go only to
    a process that the file names and a probe finds running; the directories are cleaned whenever there is a
    registration and its lock is free. */
    method ShutdownCallback(w: World, lockFree: bool, pidFile: Option<int>)
      returns (cleaned: Option<ShutdownState>, ghost probedAt: nat, ghost stop: Option<Stop>)
      requires Valid()
      requires pidFile.Some? ==> pidFile.value > 0
      modifies w
      ensures cleaned == if lockFree then FirstAccepted(attempts) else None
      ensures old(w.now) <= probedAt
      ensures stop.Some? <==> cleaned.Some? && pidFile.Some? && w.alive(probedAt)
      ensures stop.Some? ==>
        && Stopped(w.alive, cleaned.value.timeout, stop.value) && probedAt <= stop.value.termAt
        && w.signals == old(w.signals) + Escalation(pidFile.value, stop.value)
        && w.probes == old(w.probes) + [probedAt] + stop.value.wait.probes
      ensures stop.None? ==> w.signals == old(w.signals)
    {
      probedAt, stop := w.now, None;
      if !lockFree || slot.None? {
        return None, probedAt, stop;
      }
      if pidFile.None? {
        return slot, probedAt, stop;
      }
      var running := w.ProcessIsRunning(pidFile.value);
      probedAt := w.now;
      if !running {
        return slot, probedAt, stop;
      }
      ghost var stopped := StopPostmaster(w, pidFile.value, slot.value.timeout);
      return slot, probedAt, Some(stopped);
    }
  }
}
