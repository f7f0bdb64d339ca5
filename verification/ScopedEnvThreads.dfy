/** Any number of threads over one process environment and one mutex.

Opening and closing a scope are not atomic here: every write to the environment is a step of its own, and
steps of different threads interleave freely.  Changes are valid and nobody else writes the environment. */
module ScopedEnvThreads {
  import opened Wrappers
  import opened ScopedEnvSpec

  /** Where a thread stands inside enter_scope (blocked on the mutex, or with the values saved so far) or
  exit_scope (the writes still to do and the state to leave behind). */
  datatype Phase =
    | Idle
    | Waiting(vars: seq<Change>)
    | Entering(vars: seq<Change>, saved: seq<Change>)
    | Restoring(writes: seq<Change>, next: Local)

  datatype Thread = Thread(local: Local, phase: Phase)

  datatype Action = Open(vars: seq<Change>) | Close(index: nat) | Tick

  // ---------- one thread ----------

  function Reversed(saved: seq<Change>): seq<Change> {
    if saved == [] then [] else [saved[|saved| - 1]] + Reversed(saved[..|saved| - 1])
  }

  /** The writes that restore the entries above height keep, in the order the code makes them. */
  function Writes(stack: seq<Scope>, keep: nat): seq<Change>
    requires keep <= |stack|
    decreases |stack|
  {
    if keep == |stack| then []
    else Reversed(stack[|stack| - 1].saved) + Writes(stack[..|stack| - 1], keep)
  }

  predicate Ready(th: Thread, action: Action) {
    match action
    case Open(vars) => th.phase.Idle? && AllValid(vars)
    case Close(_) => th.phase.Idle?
    case Tick => !th.phase.Idle?
  }

  function Act(th: Thread, env: Env, action: Action): (Thread, Env)
    requires Ready(th, action)
  {
    var l := th.local;
    match action
    case Open(vars) =>
      if l.depth > 0 then (Thread(Local(l.depth + 1, true, l.stack), Entering(vars, [])), env)
      else (Thread(l, Waiting(vars)), env)
    case Close(index) =>
      if l.depth == 0 || !Names(l, index) then
        (Thread(l, Restoring(Writes(l.stack, 0), Local(0, false, []))), env)
      else
        var marked := Mark(l.stack, index);
        var rest := PopFinished(marked);
        (Thread(l, Restoring(Writes(marked, |rest|), Local(l.depth - 1, l.depth > 1, rest))), env)
    case Tick =>
      match th.phase
      case Waiting(vars) => (Thread(Local(l.depth + 1, true, l.stack), Entering(vars, [])), env)
      case Entering(vars, saved) =>
        if |saved| < |vars| then
          var change := vars[|saved|];
          (Thread(l, Entering(vars, saved + [Change(change.key, Read(env, change.key))])), Write(env, change))
        else
          (Thread(l.(stack := l.stack + [Scope(vars, saved, false)]), Idle), env)
      case Restoring(writes, next) =>
        if writes == [] then (Thread(next, Idle), env)
        else (Thread(l, Restoring(writes[1..], next)), Write(env, writes[0]))
  }

  lemma {:induction false} OverlayAppend(env: Env, a: seq<Change>, b: seq<Change>)
    ensures Overlay(env, a + b) == Overlay(Overlay(env, a), b)
  {
    if b == [] {
      assert a + b == a;
    } else {
      assert (a + b)[..|a + b| - 1] == a + b[..|b| - 1];
      OverlayAppend(env, a, b[..|b| - 1]);
    }
  }

  lemma {:induction false} OverlayFirst(env: Env, vars: seq<Change>)
    requires vars != []
    ensures Overlay(env, vars) == Overlay(Write(env, vars[0]), vars[1..])
  {
    assert vars == [vars[0]] + vars[1..];
    OverlayAppend(env, [vars[0]], vars[1..]);
    assert [vars[0]][..0] == [];
    assert Overlay(env, [vars[0]]) == Write(env, vars[0]);
  }

  lemma {:induction false} ReversedUndoes(env: Env, saved: seq<Change>)
    ensures Overlay(env, Reversed(saved)) == Undo(env, saved)
    decreases |saved|
  {
    if saved != [] {
      var w := Reversed(saved);
      OverlayFirst(env, w);
      assert w[1..] == Reversed(saved[..|saved| - 1]);
      ReversedUndoes(Write(env, saved[|saved| - 1]), saved[..|saved| - 1]);
    }
  }

  lemma {:induction false} WritesUndo(env: Env, stack: seq<Scope>, keep: nat)
    requires keep <= |stack|
    ensures Overlay(env, Writes(stack, keep)) == UndoDownTo(env, stack, keep)
    decreases |stack|
  {
    if keep < |stack| {
      var top := stack[|stack| - 1];
      OverlayAppend(env, Reversed(top.saved), Writes(stack[..|stack| - 1], keep));
      ReversedUndoes(env, top.saved);
      WritesUndo(Undo(env, top.saved), stack[..|stack| - 1], keep);
    }
  }

  /** What one thread and the environment it works on keep between any two steps. */
  ghost predicate ThreadInv(base: Env, th: Thread, env: Env) {
    var l := th.local;
    && (l.locked <==> l.depth > 0)
    && match th.phase
       case Idle => Inv(base, State(l, env))
       case Waiting(vars) => l.depth == 0 && AllValid(vars) && Inv(base, State(l, env))
       case Entering(vars, saved) =>
         && l.depth > 0 && |saved| <= |vars| && AllValid(vars)
         && Inv(base, State(Local(l.depth - 1, l.depth > 1, l.stack), Show(base, l.stack)))
         && env == Overlay(Show(base, l.stack), vars[..|saved|])
         && saved == Saved(Show(base, l.stack), vars[..|saved|])
       case Restoring(writes, next) =>
         && Inv(base, State(next, Overlay(env, writes)))
         && (!l.locked ==> writes == [] && !next.locked && env == base)
  }

  lemma {:induction false} UnlockedSeesBase(base: Env, th: Thread, env: Env)
    requires ThreadInv(base, th, env) && !th.local.locked
    ensures env == base && !th.phase.Entering?
    ensures th.phase.Restoring? ==> th.phase.writes == []
  {
    if th.phase.Idle? || th.phase.Waiting? {
      IdleIsBase(base, State(th.local, env));
    }
  }

  lemma {:induction false} CloseKeepsInv(base: Env, th: Thread, env: Env, index: nat)
    requires ThreadInv(base, th, env) && th.phase.Idle?
    ensures ThreadInv(base, Act(th, env, Close(index)).0, env)
  {
    var l, s := th.local, State(th.local, env);
    ExitKeepsInv(base, s, index);
    IdleIsBase(base, s);
    CloseWrites(l, env, index);
  }

  /** The planned writes and the planned state are those of Exit. */
  lemma {:induction false} CloseWrites(l: Local, env: Env, index: nat)
    ensures var phase := Act(Thread(l, Idle), env, Close(index)).0.phase;
      phase.Restoring? && State(phase.next, Overlay(env, phase.writes)) == Exit(State(l, env), index)
  {
    if l.depth == 0 || !Names(l, index) {
      WritesUndo(env, l.stack, 0);
    } else {
      var marked := Mark(l.stack, index);
      WritesUndo(env, marked, |PopFinished(marked)|);
    }
  }

  lemma {:induction false} EnteringWrites(base: Env, th: Thread, env: Env)
    requires ThreadInv(base, th, env) && th.phase.Entering? && |th.phase.saved| < |th.phase.vars|
    ensures ThreadInv(base, Act(th, env, Tick).0, Act(th, env, Tick).1)
  {
    var vars, n := th.phase.vars, |th.phase.saved|;
    assert vars[..n + 1][..n] == vars[..n];
    OneSaved(Show(base, th.local.stack), vars, n);
  }

  lemma {:induction false} OneSaved(env: Env, vars: seq<Change>, n: nat)
    requires n < |vars|
    ensures Overlay(env, vars[..n + 1]) == Write(Overlay(env, vars[..n]), vars[n])
    ensures Saved(env, vars[..n + 1])
         == Saved(env, vars[..n]) + [Change(vars[n].key, Read(Overlay(env, vars[..n]), vars[n].key))]
  {
    assert vars[..n + 1][..n] == vars[..n];
  }

  lemma {:induction false} EnteringEnds(base: Env, th: Thread, env: Env)
    requires ThreadInv(base, th, env) && th.phase.Entering? && |th.phase.saved| == |th.phase.vars|
    ensures ThreadInv(base, Act(th, env, Tick).0, Act(th, env, Tick).1)
  {
    var l, vars := th.local, th.phase.vars;
    assert vars[..|vars|] == vars;
    var s := State(Local(l.depth - 1, l.depth > 1, l.stack), Show(base, l.stack));
    EnterKeepsInv(base, s, vars);
    EnterValid(s, vars);
    assert Enter(s, vars).0 == State(Act(th, env, Tick).0.local, env);
  }

  lemma {:induction false} EnteringKeepsInv(base: Env, th: Thread, env: Env)
    requires ThreadInv(base, th, env) && th.phase.Entering?
    ensures ThreadInv(base, Act(th, env, Tick).0, Act(th, env, Tick).1)
  {
    if |th.phase.saved| < |th.phase.vars| {
      EnteringWrites(base, th, env);
    } else {
      EnteringEnds(base, th, env);
    }
  }

  lemma {:induction false} RestoringKeepsInv(base: Env, th: Thread, env: Env)
    requires ThreadInv(base, th, env) && th.phase.Restoring?
    ensures ThreadInv(base, Act(th, env, Tick).0, Act(th, env, Tick).1)
  {
    if th.phase.writes != [] {
      OverlayFirst(env, th.phase.writes);
    }
  }

  lemma {:induction false} ActKeepsInv(base: Env, th: Thread, env: Env, action: Action)
    requires ThreadInv(base, th, env) && Ready(th, action)
    ensures ThreadInv(base, Act(th, env, action).0, Act(th, env, action).1)
  {
    match action
    case Open(vars) => LockedKeepsInv(base, th, env, vars);
    case Close(index) => CloseKeepsInv(base, th, env, index);
    case Tick =>
      match th.phase
      case Waiting(vars) => LockedKeepsInv(base, th, env, vars);
      case Entering(_, _) => EnteringKeepsInv(base, th, env);
      case Restoring(_, _) => RestoringKeepsInv(base, th, env);
  }

  lemma {:induction false} LockedKeepsInv(base: Env, th: Thread, env: Env, vars: seq<Change>)
    requires Inv(base, State(th.local, env)) && AllValid(vars)
    ensures ThreadInv(base, Thread(Local(th.local.depth + 1, true, th.local.stack), Entering(vars, [])), env)
  {
    assert vars[..0] == [];
    assert State(Local(th.local.depth + 1 - 1, th.local.depth + 1 > 1, th.local.stack), env) == State(th.local, env);
  }

  // ---------- steps put together are the operations ----------

  function Ticks(th: Thread, env: Env, n: nat): (Thread, Env)
    decreases n
  {
    if n == 0 || th.phase.Idle? then (th, env)
    else
      var (th', env') := Act(th, env, Tick);
      Ticks(th', env', n - 1)
  }

  lemma {:induction false} EnteringTicks(base: Env, th: Thread, env: Env)
    requires th.phase.Entering? && |th.phase.saved| <= |th.phase.vars|
    requires env == Overlay(base, th.phase.vars[..|th.phase.saved|])
    requires th.phase.saved == Saved(base, th.phase.vars[..|th.phase.saved|])
    ensures var vars := th.phase.vars;
      Ticks(th, env, |vars| - |th.phase.saved| + 1)
      == (Thread(th.local.(stack := th.local.stack + [Scope(vars, Saved(base, vars), false)]), Idle),
          Overlay(base, vars))
    decreases |th.phase.vars| - |th.phase.saved|
  {
    var vars, n := th.phase.vars, |th.phase.saved|;
    if n < |vars| {
      var (th', env') := Act(th, env, Tick);
      assert vars[..n + 1][..n] == vars[..n];
      EnteringTicks(base, th', env');
    } else {
      assert vars[..n] == vars;
      var (th', env') := Act(th, env, Tick);
      assert Ticks(th', env', 0) == (th', env');
    }
  }

  lemma {:induction false} RestoringTicks(th: Thread, env: Env)
    requires th.phase.Restoring?
    ensures Ticks(th, env, |th.phase.writes| + 1) == (Thread(th.phase.next, Idle), Overlay(env, th.phase.writes))
    decreases |th.phase.writes|
  {
    var (th', env') := Act(th, env, Tick);
    if th.phase.writes == [] {
      assert Ticks(th', env', 0) == (th', env');
    } else {
      OverlayFirst(env, th.phase.writes);
      RestoringTicks(th', env');
    }
  }

  /** An undisturbed thread that runs the steps of enter_scope to the end has done exactly Enter. */
  lemma {:induction false} OpenRefinesEnter(l: Local, env: Env, vars: seq<Change>)
    requires AllValid(vars)
    ensures var s := Enter(State(l, env), vars).0;
      var n := |vars| + if l.depth > 0 then 1 else 2;
      Ticks(Act(Thread(l, Idle), env, Open(vars)).0, env, n) == (Thread(s.local, Idle), s.env)
  {
    EnterValid(State(l, env), vars);
    assert vars[..0] == [];
    EnteringTicks(env, Thread(Local(l.depth + 1, true, l.stack), Entering(vars, [])), env);
  }

  /** And one that runs the steps of exit_scope to the end has done exactly Exit. */
  lemma {:induction false} CloseRefinesExit(l: Local, env: Env, index: nat)
    ensures var (th, s) := (Act(Thread(l, Idle), env, Close(index)).0, Exit(State(l, env), index));
      th.phase.Restoring? && Ticks(th, env, |th.phase.writes| + 1) == (Thread(s.local, Idle), s.env)
  {
    CloseWrites(l, env, index);
    RestoringTicks(Act(Thread(l, Idle), env, Close(index)).0, env);
  }

  // ---------- all threads ----------

  datatype World = World(threads: seq<Thread>, holder: Option<nat>, env: Env)

  datatype Event = Event(thread: nat, action: Action)

  /** Only taking the mutex can block. */
  predicate Enabled(w: World, e: Event) {
    && e.thread < |w.threads|
    && Ready(w.threads[e.thread], e.action)
    && (w.threads[e.thread].phase.Waiting? ==> w.holder.None?)
  }

  function Step(w: World, e: Event): World
    requires Enabled(w, e)
  {
    var th := w.threads[e.thread];
    var (th', env') := Act(th, w.env, e.action);
    var holder :=
      if !th.local.locked && th'.local.locked then Some(e.thread)
      else if th.local.locked && !th'.local.locked then None
      else w.holder;
    World(w.threads[e.thread := th'], holder, env')
  }

  function Start(n: nat, env: Env): World {
    World(seq(n, i => Thread(Local(0, false, []), Idle)), None, env)
  }

  predicate Possible(w: World, run: seq<Event>)
    decreases |run|, 0
  {
    run == [] ||
    (Possible(w, run[..|run| - 1]) && Enabled(After(w, run[..|run| - 1]), run[|run| - 1]))
  }

  function After(w: World, run: seq<Event>): World
    requires Possible(w, run)
    decreases |run|, 1
  {
    if run == [] then w else Step(After(w, run[..|run| - 1]), run[|run| - 1])
  }

  /** The actions of one thread in a run. */
  function Own(run: seq<Event>, t: nat): seq<Action> {
    if run == [] then []
    else
      var rest, last := Own(run[..|run| - 1], t), run[|run| - 1];
      if last.thread == t then rest + [last.action] else rest
  }

  /** The same actions performed by a thread that is alone in the process. */
  function Alone(env: Env, actions: seq<Action>): Option<(Thread, Env)> {
    if actions == [] then Some((Thread(Local(0, false, []), Idle), env))
    else
      match Alone(env, actions[..|actions| - 1])
      case None => None
      case Some((th, e)) =>
        var action := actions[|actions| - 1];
        if Ready(th, action) then Some(Act(th, e, action)) else None
  }

  ghost predicate WorldInv(env: Env, run: seq<Event>, w: World) {
    && (forall t :: 0 <= t < |w.threads| ==>
          && Alone(env, Own(run, t)).Some?
          && w.threads[t] == Alone(env, Own(run, t)).value.0
          && ThreadInv(env, w.threads[t], Alone(env, Own(run, t)).value.1)
          && (w.threads[t].local.locked <==> w.holder == Some(t)))
    && (w.holder.Some? ==> w.holder.value < |w.threads|)
    && w.env == match w.holder { case None => env case Some(t) => Alone(env, Own(run, t)).value.1 }
  }

  /** A step taken in company has the effect the thread alone would see. */
  lemma {:induction false} StepLikeAlone(env: Env, run: seq<Event>, w: World, e: Event)
    requires WorldInv(env, run, w) && Enabled(w, e)
    ensures var th := w.threads[e.thread];
      var mine := Alone(env, Own(run, e.thread)).value.1;
      && Act(th, w.env, e.action).0 == Act(th, mine, e.action).0
      && (th.local.locked || Act(th, mine, e.action).0.local.locked ==> w.env == mine)
      && (!th.local.locked ==> mine == env && Act(th, w.env, e.action).1 == w.env && Act(th, mine, e.action).1 == env)
  {
    var th := w.threads[e.thread];
    if !th.local.locked {
      UnlockedSeesBase(env, th, Alone(env, Own(run, e.thread)).value.1);
    }
  }

  lemma {:induction false} StepKeepsWorld(env: Env, run: seq<Event>, w: World, e: Event)
    requires WorldInv(env, run, w) && Enabled(w, e)
    ensures WorldInv(env, run + [e], Step(w, e))
  {
    var w', t := Step(w, e), e.thread;
    var mine := Alone(env, Own(run, t)).value.1;
    StepLikeAlone(env, run, w, e);
    ActKeepsInv(env, w.threads[t], mine, e.action);
    assert (run + [e])[..|run + [e]| - 1] == run;
    var own := Own(run, t);
    assert Own(run + [e], t) == own + [e.action];
    assert (own + [e.action])[..|own + [e.action]| - 1] == own;
    assert Alone(env, Own(run + [e], t)) == Some(Act(w.threads[t], mine, e.action));
    if w.threads[t].local.locked && !w'.threads[t].local.locked {
      UnlockedSeesBase(env, w'.threads[t], Act(w.threads[t], mine, e.action).1);
    }
    forall u | 0 <= u < |w'.threads| && u != t
      ensures Own(run + [e], u) == Own(run, u)
    {
    }
  }

  lemma {:induction false} ReachableWorld(n: nat, env: Env, run: seq<Event>)
    requires Possible(Start(n, env), run)
    ensures WorldInv(env, run, After(Start(n, env), run))
    ensures |After(Start(n, env), run).threads| == n
  {
    if run != [] {
      var before := run[..|run| - 1];
      ReachableWorld(n, env, before);
      StepKeepsWorld(env, before, After(Start(n, env), before), run[|run| - 1]);
      assert before + [run[|run| - 1]] == run;
    }
  }

  /** Mutual exclusion: in every interleaving at most one thread is inside a scope, and it holds the mutex;
  with the mutex free the environment is the initial one. */
  lemma {:induction false} MutualExclusion(n: nat, env: Env, run: seq<Event>)
    requires Possible(Start(n, env), run)
    ensures var w := After(Start(n, env), run);
      && (forall t, u :: 0 <= t < |w.threads| && 0 <= u < |w.threads|
            && w.threads[t].local.depth > 0
            && w.threads[u].local.depth > 0
            ==> t == u)
      && (forall t :: 0 <= t < |w.threads| ==> (w.threads[t].local.depth > 0 <==> w.holder == Some(t)))
      && (w.holder.None? ==> w.env == env)
  {
    ReachableWorld(n, env, run);
  }

  /** Isolation: every thread is in the state it would be in had it run alone from the initial environment,
  and the thread that holds the mutex sees exactly the environment it would then see.  So a run is
  equivalent to running the threads' outermost scopes one after another. */
  lemma {:induction false} Isolation(n: nat, env: Env, run: seq<Event>, t: nat)
    requires Possible(Start(n, env), run) && t < n
    ensures var w := After(Start(n, env), run);
      && |w.threads| == n
      && Alone(env, Own(run, t)).Some?
      && w.threads[t] == Alone(env, Own(run, t)).value.0
      && (w.holder == Some(t) ==> w.env == Alone(env, Own(run, t)).value.1)
      && (w.threads[t].local.depth == 0 ==> Alone(env, Own(run, t)).value.1 == env)
  {
    ReachableWorld(n, env, run);
    var w := After(Start(n, env), run);
    if w.threads[t].local.depth == 0 {
      UnlockedSeesBase(env, w.threads[t], Alone(env, Own(run, t)).value.1);
    }
  }

  /** Only the holder changes the environment. */
  lemma {:induction false} OnlyTheHolderWrites(n: nat, env: Env, run: seq<Event>, e: Event)
    requires Possible(Start(n, env), run)
    requires Enabled(After(Start(n, env), run), e)
    ensures var w := After(Start(n, env), run);
      Step(w, e).env != w.env ==> w.holder == Some(e.thread)
  {
    ReachableWorld(n, env, run);
    StepLikeAlone(env, run, After(Start(n, env), run), e);
  }

  /** A thread is held up only while it waits for the mutex and another thread has it: the holder is never
  waiting, and between two of its calls it can close its top scope. */
  lemma {:induction false} OnlyWaitersBlock(n: nat, env: Env, run: seq<Event>, t: nat)
    requires Possible(Start(n, env), run) && t < n
    ensures |After(Start(n, env), run).threads| == n
    ensures var w := After(Start(n, env), run);
      var th := w.threads[t];
      && (!th.phase.Idle? ==> (Enabled(w, Event(t, Tick)) <==> th.phase.Waiting? ==> w.holder.None?))
      && (th.phase.Waiting? ==> th.local.depth == 0 && w.holder != Some(t))
      && (w.holder == Some(t) && th.phase.Idle? ==>
            && th.local.stack != [] && Names(th.local, |th.local.stack| - 1)
            && Enabled(w, Event(t, Close(|th.local.stack| - 1))))
  {
    ReachableWorld(n, env, run);
    var w := After(Start(n, env), run);
    if w.threads[t].phase.Idle? {
      IdleIsBase(env, State(w.threads[t].local, Alone(env, Own(run, t)).value.1));
    }
  }

  /** Calls and parts of calls the thread has before it until it is out of every scope. */
  function Ahead(th: Thread): nat {
    match th.phase
    case Idle => 2 * th.local.depth
    case Waiting(_) => 0
    case Entering(_, _) => 2 * th.local.depth + 1
    case Restoring(_, next) => 2 * next.depth + 1
  }

  function WritesAhead(th: Thread): nat {
    match th.phase
    case Entering(vars, saved) => if |saved| <= |vars| then |vars| - |saved| else 0
    case Restoring(writes, _) => |writes|
    case _ => 0
  }

  predicate Nearer(a: Thread, b: Thread) {
    Ahead(a) < Ahead(b) || (Ahead(a) == Ahead(b) && WritesAhead(a) < WritesAhead(b))
  }

  /** What a thread does next to get out: the step it is at, or closing its top scope. */
  function WayOut(th: Thread): Action {
    if th.phase.Idle? && th.local.stack != [] then Close(|th.local.stack| - 1) else Tick
  }

  lemma {:induction false} WayOutIsNearer(base: Env, th: Thread, mine: Env, env: Env)
    requires ThreadInv(base, th, mine) && th.local.locked
    ensures Ready(th, WayOut(th)) && Nearer(Act(th, env, WayOut(th)).0, th)
  {
    if th.phase.Idle? {
      IdleIsBase(base, State(th.local, mine));
    }
  }

  /** One step on its way out. */
  lemma {:induction false} LeavingStep(n: nat, env: Env, run: seq<Event>, t: nat) returns (e: Event)
    requires Possible(Start(n, env), run) && After(Start(n, env), run).holder == Some(t)
    ensures t < n && |After(Start(n, env), run).threads| == n
    ensures e.thread == t && Enabled(After(Start(n, env), run), e)
    ensures var w, w' := After(Start(n, env), run), Step(After(Start(n, env), run), e);
      w'.holder in {Some(t), None} && Nearer(w'.threads[t], w.threads[t])
  {
    ReachableWorld(n, env, run);
    var w := After(Start(n, env), run);
    e := Event(t, WayOut(w.threads[t]));
    WayOutIsNearer(env, w.threads[t], Alone(env, Own(run, t)).value.1, w.env);
  }

  lemma {:induction false} OneMore(n: nat, env: Env, run: seq<Event>, e: Event)
    requires Possible(Start(n, env), run) && Enabled(After(Start(n, env), run), e)
    ensures Possible(Start(n, env), run + [e])
    ensures After(Start(n, env), run + [e]) == Step(After(Start(n, env), run), e)
  {
    assert (run + [e])[..|run + [e]| - 1] == run;
  }

  /** From every reachable world the holder can get out of its scopes by itself, and the mutex is then free. */
  lemma {:induction false} HolderCanLeave(n: nat, env: Env, run: seq<Event>, t: nat) returns (longer: seq<Event>)
    requires Possible(Start(n, env), run) && After(Start(n, env), run).holder == Some(t)
    ensures run <= longer && Possible(Start(n, env), longer)
    ensures var w, w' := After(Start(n, env), run), After(Start(n, env), longer);
      && w'.holder.None? && w'.env == env && |w'.threads| == |w.threads| == n
      && forall u :: 0 <= u < n && u != t ==> w'.threads[u] == w.threads[u]
    decreases Ahead(After(Start(n, env), run).threads[HeldBy(n, env, run, t)]),
      WritesAhead(After(Start(n, env), run).threads[HeldBy(n, env, run, t)])
  {
    var e := LeavingStep(n, env, run, t);
    OneMore(n, env, run, e);
    longer := run + [e];
    if After(Start(n, env), longer).holder.Some? {
      longer := HolderCanLeave(n, env, longer, t);
    } else {
      ReachableWorld(n, env, longer);
    }
  }

  /** The holder is one of the threads. */
  function HeldBy(n: nat, env: Env, run: seq<Event>, t: nat): (u: nat)
    requires Possible(Start(n, env), run) && After(Start(n, env), run).holder == Some(t)
    ensures u == t < |After(Start(n, env), run).threads|
  {
    ReachableWorld(n, env, run);
    t
  }

  /** No waiting thread is shut out: every reachable world with one leads to a world in which that thread has the
  mutex and sees the initial environment. */
  lemma {:induction false} WaiterCanEnter(n: nat, env: Env, run: seq<Event>, u: nat) returns (longer: seq<Event>)
    requires Possible(Start(n, env), run) && u < n
    requires u < |After(Start(n, env), run).threads| && After(Start(n, env), run).threads[u].phase.Waiting?
    ensures run <= longer && Possible(Start(n, env), longer)
    ensures var w := After(Start(n, env), longer);
      w.holder == Some(u) && u < |w.threads| && w.threads[u].phase.Entering? && w.env == env
  {
    ReachableWorld(n, env, run);
    OnlyWaitersBlock(n, env, run, u);
    longer := run;
    var holder := After(Start(n, env), run).holder;
    if holder.Some? {
      longer := HolderCanLeave(n, env, run, holder.value);
    }
    ReachableWorld(n, env, longer);
    OnlyWaitersBlock(n, env, longer, u);
    OneMore(n, env, longer, Event(u, Tick));
    longer := longer + [Event(u, Tick)];
  }
}
