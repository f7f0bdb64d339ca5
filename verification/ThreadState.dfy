/** The per-thread state of the scoped environment, in the form the code has: fields updated in place, a stack
popped in a loop, a process-wide map of variables and a process-wide mutex. */
module ThreadState {
  import opened ScopedEnvSpec

  /** The environment block of the process. */
  class ProcessEnv {
    var vars: Env

    constructor (vars: Env)
      ensures this.vars == vars
    {
      this.vars := vars;
    }
  }

  /** The process-wide mutex. */
  class EnvMutex {
    var held: bool

    constructor ()
      ensures !held
    {
      held := false;
    }
  }

  class ThreadStateCore {
    const process: ProcessEnv
    const mutex: EnvMutex
    var depth: nat
    var lock: bool  // whether this thread owns the mutex guard
    var stack: seq<Scope>
    ghost var base: Env  // the environment when the mutex was last acquired

    /** Holds after every call, one that panicked included. */
    ghost predicate Valid()
      reads this, mutex
    {
      && (lock <==> depth > 0)
      && (lock ==> mutex.held)
      && Unfinished(stack) <= depth
      && TopUnfinished(stack)
    }

    ghost function View(): State
      reads this, process
    {
      State(Local(depth, lock, stack), process.vars)
    }

    /** The invariant of the specification, once no enter_scope has panicked. */
    ghost predicate Clean()
      reads this, process
    {
      if depth > 0 then Inv(base, View()) else stack == []
    }

    constructor (process: ProcessEnv, mutex: EnvMutex)
      ensures this.process == process && this.mutex == mutex
      ensures Valid() && Clean()
      ensures View() == Fresh(process.vars)
    {
      this.process, this.mutex := process, mutex;
      depth, lock, stack := 0, false, [];
      base := process.vars;
    }

    /** The call returns only once the mutex can be taken, so a free mutex is what an idle caller finds. */
    method EnterScope(vars: seq<Change>) returns (entered: Entered)
      requires Valid()
      requires depth == 0 ==> !mutex.held
      modifies this, process, mutex
      ensures Valid()
      ensures (View(), entered) == Enter(old(View()), vars)
      ensures base == if old(depth) == 0 then old(process.vars) else old(base)
      ensures old(Clean()) && entered.Index? ==> Clean()
    {
      ghost var before := View();
      IdleHolds(process.vars);
      AcquireLockIfNeeded();
      assert old(Clean()) ==> Inv(base, before);
      depth := depth + 1;
      var saved, ok := ApplyEnvVars(vars);
      if !ok {
        return Panicked;
      }
      ScopeEntered(base, before, vars);
      assert vars[..|vars|] == vars;
      var index := |stack|;
      stack := stack + [Scope(vars, saved, false)];
      assert View() == Enter(before, vars).0;
      return Index(index);
    }

    /** Reaching depth zero in a clean run brings back the environment seen when the mutex was acquired. */
    method ExitScope(index: nat)
      requires Valid()
      modifies this, process, mutex
      ensures Valid() && base == old(base)
      ensures View() == Exit(old(View()), index)
      ensures old(Clean()) ==> Clean()
      ensures old(Clean()) && old(depth) > 0 && depth == 0 ==> process.vars == base && !lock
      ensures old(lock) && !lock ==> !mutex.held
    {
      if old(Clean()) && depth > 0 {
        ExitKeepsInv(base, View(), index);
        IdleIsBase(base, Exit(View(), index));
      }
      UnfinishedEmpty(stack);
      if depth == 0 {
        ForceRestoreAndReset();
        return;
      }
      depth := depth - 1;
      var finished := FinishScope(index);
      if !finished {
        return;
      }
      if depth == 0 {
        UnfinishedEmpty(stack);
        ReleaseOutermostLock();
      }
    }

    method AcquireLockIfNeeded()
      requires lock <==> depth > 0
      requires depth == 0 ==> !mutex.held
      requires lock ==> mutex.held
      modifies this`lock, this`base, mutex
      ensures lock && mutex.held
      ensures base == if depth == 0 then process.vars else old(base)
    {
      if depth > 0 {
        return;
      }
      assert !lock;  // the assertion of the code: no guard is left over
      mutex.held := true;
      lock := true;
      base := process.vars;
    }

    /** Stops, as a panic does, at the first change that is refused; the values saved so far are then lost. */
    method ApplyEnvVars(vars: seq<Change>) returns (saved: seq<Change>, ok: bool)
      requires lock  // the assertion of the code: the mutex is held
      modifies process
      ensures ok <==> ValidPrefix(vars) == |vars|
      ensures ok ==> saved == Saved(old(process.vars), vars)
      ensures process.vars == Overlay(old(process.vars), vars[..ValidPrefix(vars)])
    {
      saved := [];
      var i := 0;
      while i < |vars|
        invariant 0 <= i <= |vars| && AllValid(vars[..i])
        invariant saved == Saved(old(process.vars), vars[..i])
        invariant process.vars == Overlay(old(process.vars), vars[..i])
      {
        assert vars[..i + 1][..i] == vars[..i];
        if !CheckedKey(vars[i].key) {
          ValidPrefixIs(vars, i);
          return saved, false;
        }
        var previous, written := ApplySingleVar(vars[i]);
        if !written {
          ValidPrefixIs(vars, i);
          return saved, false;
        }
        saved := saved + [previous];
        i := i + 1;
      }
      assert vars[..|vars|] == vars;
      ok := true;
    }

    /** Writes one change and gives the previous value.  The system's call panics on a NUL, with nothing written. */
    method ApplySingleVar(change: Change) returns (previous: Change, written: bool)
      requires CheckedKey(change.key)
      modifies process
      ensures previous == Change(change.key, Read(old(process.vars), change.key))
      ensures written <==> ValidChange(change)
      ensures process.vars == if written then Write(old(process.vars), change) else old(process.vars)
    {
      previous := Change(change.key, Read(process.vars, change.key));
      written := NoNul(change);
      if written {
        process.vars := Write(process.vars, change);
      }
    }

    method FinishScope(index: nat) returns (finished: bool)
      requires lock && mutex.held && TopUnfinished(stack)
      modifies this`depth, this`lock, this`stack, process, mutex
      ensures finished <==> old(Names(Local(depth, lock, stack), index))
      ensures !finished ==> View() == Reset(old(View())) && !mutex.held
      ensures finished ==>
        var marked := Mark(old(stack), index);
        && View() == State(Local(old(depth), true, PopFinished(marked)),
                           UndoDownTo(old(process.vars), marked, |PopFinished(marked)|))
        && mutex.held
        && Unfinished(stack) == Unfinished(old(stack)) - 1
    {
      if index >= |stack| {
        ForceRestoreAndReset();
        return false;
      }
      if stack[index].finished {
        ForceRestoreAndReset();
        return false;
      }
      MarkKeepsLayers(process.vars, stack, index);
      PopKeepsUnfinished(Mark(stack, index));
      stack := stack[index := stack[index].(finished := true)];
      RestoreFinishedScopes();
      return true;
    }

    method RestoreFinishedScopes()
      requires lock && mutex.held
      modifies this`lock, this`stack, process, mutex
      ensures lock && mutex.held
      ensures stack == PopFinished(old(stack))
      ensures process.vars == UndoDownTo(old(process.vars), old(stack), |PopFinished(old(stack))|)
    {
      ghost var keep := |PopFinished(stack)|;
      if |stack| > 0 && stack[|stack| - 1].finished {
        EnsureLockForRestore();
      }
      while |stack| > 0
        invariant lock && mutex.held
        invariant PopFinished(stack) == PopFinished(old(stack))
        invariant UndoDownTo(process.vars, stack, keep) == UndoDownTo(old(process.vars), old(stack), keep)
        decreases |stack|
      {
        var top := stack[|stack| - 1];
        stack := stack[..|stack| - 1];
        if !top.finished {
          stack := stack + [top];
          break;
        }
        RestoreSaved(process, top.saved);
      }
    }

    /** The stack is empty and the guard is there: the two assertions of the code. */
    method ReleaseOutermostLock()
      requires stack == [] && lock
      modifies this`lock, mutex
      ensures !lock && !mutex.held
    {
      lock := false;
      mutex.held := false;
    }

    method ForceRestoreAndReset()
      requires stack == [] || lock || !mutex.held
      requires lock ==> mutex.held
      modifies this`depth, this`lock, this`stack, process, mutex
      ensures View() == Reset(old(View()))
      ensures old(lock || stack != []) ==> !mutex.held
      ensures !old(lock || stack != []) ==> mutex.held == old(mutex.held)
    {
      if stack == [] {
        if lock {
          ResetDepthAndUnlock();
        } else {
          depth := 0;
        }
        return;
      }
      EnsureLockForRestore();
      RestoreAllScopes();
      ResetDepthAndUnlock();
    }

    method EnsureLockForRestore()
      requires lock || !mutex.held
      requires lock ==> mutex.held
      modifies this`lock, mutex
      ensures lock && mutex.held
    {
      if !lock {
        mutex.held := true;
        lock := true;
      }
    }

    method RestoreAllScopes()
      requires lock && mutex.held
      modifies this`lock, this`stack, process, mutex
      ensures lock && mutex.held && stack == []
      ensures process.vars == UndoDownTo(old(process.vars), old(stack), 0)
    {
      if stack == [] {
        return;
      }
      EnsureLockForRestore();
      while |stack| > 0
        invariant lock && mutex.held
        invariant UndoDownTo(process.vars, stack, 0) == UndoDownTo(old(process.vars), old(stack), 0)
        decreases |stack|
      {
        var top := stack[|stack| - 1];
        stack := stack[..|stack| - 1];
        RestoreSaved(process, top.saved);
      }
    }

    method ResetDepthAndUnlock()
      modifies this`depth, this`lock, mutex
      ensures depth == 0 && !lock
      ensures mutex.held == (old(mutex.held) && !old(lock))
    {
      depth := 0;
      if lock {
        lock := false;
        mutex.held := false;
      }
    }
  }

  method RestoreSaved(process: ProcessEnv, saved: seq<Change>)
    modifies process
    ensures process.vars == Undo(old(process.vars), saved)
  {
    var i := |saved|;
    assert saved[..i] == saved;
    while i > 0
      invariant 0 <= i <= |saved|
      invariant Undo(process.vars, saved[..i]) == Undo(old(process.vars), saved)
    {
      i := i - 1;
      assert saved[..i + 1][..i] == saved[..i];
      process.vars := Write(process.vars, saved[i]);
    }
  }
}
