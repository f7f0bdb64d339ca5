/** The scoped process environment as a function from states to states.

A thread keeps a stack of scopes.  Opening a scope writes its changes to the
process environment and remembers the previous values; closing one marks it
finished, and an entry is undone only once everything above it is finished.
The class ThreadState.ThreadStateCore is the code in its own form and is proved
equal to Enter and Exit below; this module proves what they are for. */
module ScopedEnvSpec {
  import opened Wrappers

  type Key = string
  type Value = string
  type Env = map<Key, Value>

  /** A request to set a variable (Some) or to remove it (None).  Saved previous values have the same shape. */
  datatype Change = Change(key: Key, value: Option<Value>)

  /** One stack entry.  The code stores saved and finished; vars records, for the specification only,
  what the scope asked for. */
  datatype Scope = Scope(vars: seq<Change>, saved: seq<Change>, finished: bool)

  datatype Local = Local(depth: nat, locked: bool, stack: seq<Scope>)

  datatype State = State(local: Local, env: Env)

  datatype Entered = Index(index: nat) | Panicked

  const NUL: char := '\0'

  // ---------- single writes ----------

  /** What the code checks of a key before it writes. */
  predicate CheckedKey(key: Key) {
    key != [] && '=' !in key
  }

  /** What the system's call takes besides: it panics on a NUL in the key or in the value. */
  predicate NoNul(change: Change) {
    NUL !in change.key && (change.value.Some? ==> NUL !in change.value.value)
  }

  predicate ValidChange(change: Change) {
    CheckedKey(change.key) && NoNul(change)
  }

  predicate AllValid(vars: seq<Change>) {
    forall i :: 0 <= i < |vars| ==> ValidChange(vars[i])
  }

  function Read(env: Env, key: Key): Option<Value> {
    if key in env then Some(env[key]) else None
  }

  function Write(env: Env, change: Change): Env {
    match change.value
    case Some(v) => env[change.key := v]
    case None => env - {change.key}
  }

  /** The environment after all changes, first to last. */
  function Overlay(env: Env, vars: seq<Change>): Env {
    if vars == [] then env else Write(Overlay(env, vars[..|vars| - 1]), vars[|vars| - 1])
  }

  /** The previous values seen by those writes. */
  function Saved(env: Env, vars: seq<Change>): (saved: seq<Change>)
    ensures |saved| == |vars|
  {
    if vars == [] then []
    else
      var init, last := vars[..|vars| - 1], vars[|vars| - 1];
      Saved(env, init) + [Change(last.key, Read(Overlay(env, init), last.key))]
  }

  /** Writes the saved values back, last to first. */
  function Undo(env: Env, saved: seq<Change>): Env
    decreases |saved|
  {
    if saved == [] then env else Undo(Write(env, saved[|saved| - 1]), saved[..|saved| - 1])
  }

  /** A key listed twice is restored to its first saved value: undoing reverses the writes whatever they were. */
  lemma {:induction false} UndoOverlay(env: Env, vars: seq<Change>)
    ensures Undo(Overlay(env, vars), Saved(env, vars)) == env
  {
    if vars != [] {
      var init, last := vars[..|vars| - 1], vars[|vars| - 1];
      var before := Overlay(env, init);
      assert Write(Write(before, last), Change(last.key, Read(before, last.key))) == before;
      assert Saved(env, vars)[..|vars| - 1] == Saved(env, init);
      UndoOverlay(env, init);
    }
  }

  /** What a reader of the environment sees: the last change that names the key, or the old value. */
  function LastChange(vars: seq<Change>, key: Key): Option<Change> {
    if vars == [] then None
    else if vars[|vars| - 1].key == key then Some(vars[|vars| - 1])
    else LastChange(vars[..|vars| - 1], key)
  }

  lemma {:induction false} OverlayRead(env: Env, vars: seq<Change>, key: Key)
    ensures Read(Overlay(env, vars), key)
         == match LastChange(vars, key) { case Some(c) => c.value case None => Read(env, key) }
  {
    if vars != [] {
      OverlayRead(env, vars[..|vars| - 1], key);
    }
  }

  // ---------- stacks of scopes ----------

  function Unfinished(stack: seq<Scope>): nat {
    if stack == [] then 0
    else Unfinished(stack[..|stack| - 1]) + (if stack[|stack| - 1].finished then 0 else 1)
  }

  /** The base environment with every entry laid over it in order, finished or not. */
  function Show(base: Env, stack: seq<Scope>): Env {
    if stack == [] then base else Overlay(Show(base, stack[..|stack| - 1]), stack[|stack| - 1].vars)
  }

  /** Every entry saved exactly what lay under it. */
  predicate Layered(base: Env, stack: seq<Scope>) {
    stack == [] ||
    var init, last := stack[..|stack| - 1], stack[|stack| - 1];
    Layered(base, init) && last.saved == Saved(Show(base, init), last.vars)
  }

  predicate TopUnfinished(stack: seq<Scope>) {
    stack == [] || !stack[|stack| - 1].finished
  }

  function Mark(stack: seq<Scope>, index: nat): seq<Scope>
    requires index < |stack|
  {
    stack[index := stack[index].(finished := true)]
  }

  /** The stack left by the pop loop. */
  function PopFinished(stack: seq<Scope>): (rest: seq<Scope>)
    ensures rest <= stack
    ensures TopUnfinished(rest)
    ensures forall i :: |rest| <= i < |stack| ==> stack[i].finished
  {
    if TopUnfinished(stack) then stack else PopFinished(stack[..|stack| - 1])
  }

  /** The environment left by restoring the entries of stack from the top down to height keep. */
  function UndoDownTo(env: Env, stack: seq<Scope>, keep: nat): Env
    requires keep <= |stack|
    decreases |stack|
  {
    if keep == |stack| then env
    else UndoDownTo(Undo(env, stack[|stack| - 1].saved), stack[..|stack| - 1], keep)
  }

  lemma {:induction false} UndoShows(base: Env, stack: seq<Scope>, keep: nat)
    requires Layered(base, stack) && keep <= |stack|
    ensures Layered(base, stack[..keep])
    ensures UndoDownTo(Show(base, stack), stack, keep) == Show(base, stack[..keep])
  {
    if keep == |stack| {
      assert stack[..keep] == stack;
    } else {
      var init := stack[..|stack| - 1];
      UndoOverlay(Show(base, init), stack[|stack| - 1].vars);
      UndoShows(base, init, keep);
      assert init[..keep] == stack[..keep];
    }
  }

  lemma {:induction false} MarkKeepsLayers(base: Env, stack: seq<Scope>, index: nat)
    requires index < |stack|
    ensures Show(base, Mark(stack, index)) == Show(base, stack)
    ensures Layered(base, Mark(stack, index)) <==> Layered(base, stack)
    ensures !stack[index].finished ==> Unfinished(Mark(stack, index)) == Unfinished(stack) - 1
  {
    var init, marked := stack[..|stack| - 1], Mark(stack, index);
    if index == |stack| - 1 {
      assert marked[..|stack| - 1] == init;
    } else {
      assert marked[..|stack| - 1] == Mark(init, index);
      MarkKeepsLayers(base, init, index);
    }
  }

  lemma {:induction false} PopKeepsUnfinished(stack: seq<Scope>)
    ensures Unfinished(PopFinished(stack)) == Unfinished(stack)
  {
    if !TopUnfinished(stack) {
      PopKeepsUnfinished(stack[..|stack| - 1]);
    }
  }

  lemma {:induction false} PushUnfinished(stack: seq<Scope>, scope: Scope)
    requires !scope.finished
    ensures Unfinished(stack + [scope]) == Unfinished(stack) + 1 && TopUnfinished(stack + [scope])
  {
    assert (stack + [scope])[..|stack|] == stack;
  }

  lemma {:induction false} UnfinishedEmpty(stack: seq<Scope>)
    requires TopUnfinished(stack)
    ensures Unfinished(stack) == 0 <==> stack == []
  {
  }

  // ---------- the two operations ----------

  /** The number of changes applied before the first that panics. */
  function ValidPrefix(vars: seq<Change>): (n: nat)
    ensures n <= |vars| && AllValid(vars[..n])
    ensures n < |vars| ==> !ValidChange(vars[n])
    ensures n == |vars| <==> AllValid(vars)
  {
    if vars == [] then 0
    else
      var n := ValidPrefix(vars[..|vars| - 1]);
      if n < |vars| - 1 then n
      else if ValidChange(vars[|vars| - 1]) then (assert vars[..|vars|] == vars; |vars|)
      else n
  }

  lemma {:induction false} ValidPrefixIs(vars: seq<Change>, n: nat)
    requires n < |vars| && AllValid(vars[..n]) && !ValidChange(vars[n])
    ensures ValidPrefix(vars) == n
  {
    var m := ValidPrefix(vars);
    assert forall i :: 0 <= i < m ==> vars[..m][i] == vars[i];
    assert forall i :: 0 <= i < n ==> vars[..n][i] == vars[i];
  }

  /** Opening a scope.  The lock and the depth are taken before the changes are checked and written, so an invalid
  one panics with both taken and with the saved values lost. */
  function Enter(s: State, vars: seq<Change>): (State, Entered) {
    var l := s.local;
    var n := ValidPrefix(vars);
    var env := Overlay(s.env, vars[..n]);
    if n < |vars| then
      (State(Local(l.depth + 1, true, l.stack), env), Panicked)
    else
      var scope := Scope(vars, Saved(s.env, vars), false);
      (State(Local(l.depth + 1, true, l.stack + [scope]), env), Index(|l.stack|))
  }

  lemma {:induction false} EnterValid(s: State, vars: seq<Change>)
    requires AllValid(vars)
    ensures var l := s.local;
      Enter(s, vars) == (
        State(Local(l.depth + 1, true, l.stack + [Scope(vars, Saved(s.env, vars), false)]), Overlay(s.env, vars)),
        Index(|l.stack|))
  {
    assert vars[..|vars|] == vars;
  }

  /** A single change makes an opening panic, with the lock and the depth taken and nothing written, exactly when its
  key is empty or holds a '=', or its key or its value holds a NUL. */
  lemma {:induction false} RefusedExactly(s: State, c: Change)
    ensures Enter(s, [c]).1 == Panicked <==>
      || c.key == ""
      || (exists i :: 0 <= i < |c.key| && (c.key[i] == '=' || c.key[i] == '\0'))
      || (c.value.Some? && exists i :: 0 <= i < |c.value.value| && c.value.value[i] == '\0')
    ensures Enter(s, [c]).1 == Panicked ==>
      Enter(s, [c]).0 == State(Local(s.local.depth + 1, true, s.local.stack), s.env)
  {
    assert AllValid([c]) <==> ValidChange(c) by { assert [c][0] == c; }
    assert [c][..0] == [];
  }

  /** Everything is undone and the thread forgets all its scopes. */
  function Reset(s: State): State {
    State(Local(0, false, []), UndoDownTo(s.env, s.local.stack, 0))
  }

  /** An index that names an unfinished entry. */
  predicate Names(l: Local, index: nat) {
    index < |l.stack| && !l.stack[index].finished
  }

  function Exit(s: State, index: nat): State {
    var l := s.local;
    if l.depth == 0 || !Names(l, index) then Reset(s)
    else
      var marked := Mark(l.stack, index);
      var rest := PopFinished(marked);
      State(Local(l.depth - 1, l.depth > 1, rest), UndoDownTo(s.env, marked, |rest|))
  }

  // ---------- what every call keeps ----------

  ghost predicate Inv(base: Env, s: State) {
    var l := s.local;
    && (l.locked <==> l.depth > 0)
    && l.depth == Unfinished(l.stack)
    && TopUnfinished(l.stack)
    && Layered(base, l.stack)
    && s.env == Show(base, l.stack)
  }

  lemma {:induction false} IdleIsBase(base: Env, s: State)
    requires Inv(base, s)
    ensures s.local.depth == 0 <==> s.local.stack == []
    ensures s.local.depth == 0 ==> s.env == base && !s.local.locked
  {
    UnfinishedEmpty(s.local.stack);
  }

  lemma {:induction false} IdleHolds(env: Env)
    ensures Inv(env, Fresh(env))
  {
  }

  /** Opening a scope keeps the invariant exactly when no change makes it panic. */
  lemma {:induction false} EnterKeepsInv(base: Env, s: State, vars: seq<Change>)
    requires Inv(base, s)
    ensures Inv(base, Enter(s, vars).0) <==> AllValid(vars)
    ensures AllValid(vars) ==>
      Enter(s, vars).1 == Index(|s.local.stack|) && Names(Enter(s, vars).0.local, |s.local.stack|)
  {
    if AllValid(vars) {
      assert vars[..|vars|] == vars;
      var stack := Enter(s, vars).0.local.stack;
      assert stack[..|stack| - 1] == s.local.stack;
    }
  }

  lemma {:induction false} ScopeEntered(base: Env, s: State, vars: seq<Change>)
    requires AllValid(vars)
    ensures var stack := s.local.stack + [Scope(vars, Saved(s.env, vars), false)];
      && Enter(s, vars) == (State(Local(s.local.depth + 1, true, stack), Overlay(s.env, vars)), Index(|s.local.stack|))
      && Unfinished(stack) == Unfinished(s.local.stack) + 1 && TopUnfinished(stack)
    ensures Inv(base, s) ==> Inv(base, Enter(s, vars).0)
  {
    EnterValid(s, vars);
    PushUnfinished(s.local.stack, Scope(vars, Saved(s.env, vars), false));
    if Inv(base, s) {
      EnterKeepsInv(base, s, vars);
    }
  }

  /** Closing keeps it for every index: out of range, repeated or out of order. */
  lemma {:induction false} ExitKeepsInv(base: Env, s: State, index: nat)
    requires Inv(base, s)
    ensures Inv(base, Exit(s, index))
  {
    var l := s.local;
    if l.depth == 0 || !Names(l, index) {
      UndoShows(base, l.stack, 0);
    } else {
      var marked := Mark(l.stack, index);
      MarkKeepsLayers(base, l.stack, index);
      UndoShows(base, marked, |PopFinished(marked)|);
      assert marked[..|PopFinished(marked)|] == PopFinished(marked);
      PopKeepsUnfinished(marked);
    }
  }

  /** Dropping an outer guard early is invisible: nothing is popped and no variable changes, unless the
  guard is the top one. */
  lemma {:induction false} EarlyExitIsInvisible(base: Env, s: State, index: nat)
    requires Inv(base, s) && Names(s.local, index)
    ensures |Exit(s, index).local.stack| == |s.local.stack| <==> index < |s.local.stack| - 1
    ensures index < |s.local.stack| - 1 ==>
      Exit(s, index) == s.(local := Local(s.local.depth - 1, true, Mark(s.local.stack, index)))
  {
    var marked := Mark(s.local.stack, index);
    MarkKeepsLayers(base, s.local.stack, index);
    if index < |s.local.stack| - 1 {
      assert Unfinished(marked) > 0 by { UnfinishedEmpty(marked); }
    }
  }

  /** Dropping the top guard uncovers the highest unfinished entry below it, and everything up to that
  entry stays visible, early-dropped scopes included. */
  lemma {:induction false} TopExitUncovers(base: Env, s: State)
    requires Inv(base, s) && s.local.depth > 0
    ensures s.local.stack != []
    ensures var rest := Exit(s, |s.local.stack| - 1).local.stack;
      && rest < s.local.stack
      && TopUnfinished(rest)
      && (forall i :: |rest| <= i < |s.local.stack| - 1 ==> s.local.stack[i].finished)
      && Exit(s, |s.local.stack| - 1).env == Show(base, rest)
  {
    UnfinishedEmpty(s.local.stack);
    var top := |s.local.stack| - 1;
    ExitKeepsInv(base, s, top);
    var marked := Mark(s.local.stack, top);
    var rest := PopFinished(marked);
    assert marked[..top] == s.local.stack[..top];
    assert |rest| <= top;
    assert rest == marked[..|rest|] == s.local.stack[..|rest|];
    forall i | |rest| <= i < top
      ensures s.local.stack[i].finished
    {
      assert marked[i].finished;
    }
  }

  // ---------- whole runs ----------

  datatype Call = EnterCall(vars: seq<Change>) | ExitCall(index: nat)

  predicate ValidCall(c: Call) {
    c.EnterCall? ==> AllValid(c.vars)
  }

  function Run(s: State, calls: seq<Call>): State {
    if calls == [] then s
    else
      var before := Run(s, calls[..|calls| - 1]);
      match calls[|calls| - 1]
      case EnterCall(vars) => Enter(before, vars).0
      case ExitCall(index) => Exit(before, index)
  }

  function Fresh(env: Env): State {
    State(Local(0, false, []), env)
  }

  /** For every sequence of calls, with any indices at all, the invariant holds at the end, and a depth of
  zero means the original environment is back and the lock is free. */
  lemma {:induction false} AnyRunKeepsInv(env: Env, calls: seq<Call>)
    requires forall i :: 0 <= i < |calls| ==> ValidCall(calls[i])
    ensures Inv(env, Run(Fresh(env), calls))
    ensures var s := Run(Fresh(env), calls);
      s.local.depth == 0 ==> s == Fresh(env)
  {
    if calls != [] {
      AnyRunKeepsInv(env, calls[..|calls| - 1]);
      var before := Run(Fresh(env), calls[..|calls| - 1]);
      match calls[|calls| - 1]
      case EnterCall(vars) => EnterKeepsInv(env, before, vars);
      case ExitCall(index) => ExitKeepsInv(env, before, index);
    }
    IdleIsBase(env, Run(Fresh(env), calls));
  }

  /** An environment the system can hold. */
  predicate NulFree(env: Env) {
    forall k :: k in env ==> NUL !in env[k]
  }

  ghost predicate Restorable(s: State) {
    NulFree(s.env) && forall i :: 0 <= i < |s.local.stack| ==> AllValid(s.local.stack[i].saved)
  }

  lemma {:induction false} SavedIsValid(env: Env, vars: seq<Change>)
    requires NulFree(env) && AllValid(vars)
    ensures AllValid(Saved(env, vars)) && NulFree(Overlay(env, vars))
  {
    if vars != [] {
      SavedIsValid(env, vars[..|vars| - 1]);
    }
  }

  lemma {:induction false} UndoKeepsNulFree(env: Env, saved: seq<Change>)
    requires NulFree(env) && AllValid(saved)
    ensures NulFree(Undo(env, saved))
    decreases |saved|
  {
    if saved != [] {
      UndoKeepsNulFree(Write(env, saved[|saved| - 1]), saved[..|saved| - 1]);
    }
  }

  lemma {:induction false} UndoDownKeepsNulFree(env: Env, stack: seq<Scope>, keep: nat)
    requires NulFree(env) && keep <= |stack| && forall i :: 0 <= i < |stack| ==> AllValid(stack[i].saved)
    ensures NulFree(UndoDownTo(env, stack, keep))
    decreases |stack|
  {
    if keep < |stack| {
      UndoKeepsNulFree(env, stack[|stack| - 1].saved);
      UndoDownKeepsNulFree(Undo(env, stack[|stack| - 1].saved), stack[..|stack| - 1], keep);
    }
  }

  /** After any run without a panic every saved change is one the system takes, so restoring never panics. */
  lemma {:induction false} RestoringNeverPanics(env: Env, calls: seq<Call>)
    requires NulFree(env) && forall i :: 0 <= i < |calls| ==> ValidCall(calls[i])
    ensures Restorable(Run(Fresh(env), calls))
  {
    if calls != [] {
      RestoringNeverPanics(env, calls[..|calls| - 1]);
      var s := Run(Fresh(env), calls[..|calls| - 1]);
      match calls[|calls| - 1]
      case EnterCall(vars) =>
        EnterValid(s, vars);
        SavedIsValid(s.env, vars);
      case ExitCall(index) =>
        UndoDownKeepsNulFree(s.env, s.local.stack, 0);
        if Names(s.local, index) {
          var marked := Mark(s.local.stack, index);
          UndoDownKeepsNulFree(s.env, marked, |PopFinished(marked)|);
        }
    }
  }

  /** Every exit names an unfinished entry when it is made. */
  predicate Proper(s: State, calls: seq<Call>) {
    forall i :: 0 <= i < |calls| && calls[i].ExitCall? ==> Names(Run(s, calls[..i]).local, calls[i].index)
  }

  /** The lock is taken with more openings counted than there are entries to close. */
  predicate Leaked(l: Local) {
    l.locked && l.depth > Unfinished(l.stack) && TopUnfinished(l.stack)
  }

  lemma {:induction false} ExitKeepsLeak(s: State, index: nat)
    requires Leaked(s.local)
    ensures Names(s.local, index) <==> Exit(s, index).local.locked
    ensures Names(s.local, index) ==> Leaked(Exit(s, index).local)
  {
    if Names(s.local, index) {
      MarkKeepsLayers(s.env, s.local.stack, index);
      PopKeepsUnfinished(Mark(s.local.stack, index));
    }
  }

  lemma {:induction false} EnterKeepsLeak(s: State, vars: seq<Change>)
    requires Leaked(s.local)
    ensures Leaked(Enter(s, vars).0.local)
  {
    if AllValid(vars) {
      EnterValid(s, vars);
      PushUnfinished(s.local.stack, Scope(vars, Saved(s.env, vars), false));
    }
  }

  /** After a panic in any consistent state, the lock stays taken through every later run of openings, with valid
  changes or not, and closings that name unfinished entries; only a forced reset frees it. */
  lemma {:induction false} PanicLeaksTheLock(base: Env, s: State, bad: seq<Change>, calls: seq<Call>, index: nat)
    requires Inv(base, s) && !AllValid(bad) && Proper(Enter(s, bad).0, calls)
    ensures var end := Run(Enter(s, bad).0, calls);
      Leaked(end.local) && (Exit(end, index).local.locked <==> Names(end.local, index))
  {
    LeakStays(Enter(s, bad).0, calls);
    ExitKeepsLeak(Run(Enter(s, bad).0, calls), index);
  }

  lemma {:induction false} LeakStays(start: State, calls: seq<Call>)
    requires Leaked(start.local) && Proper(start, calls)
    ensures Leaked(Run(start, calls).local)
  {
    if calls != [] {
      var init := calls[..|calls| - 1];
      var before := Run(start, init);
      assert forall i :: 0 <= i < |init| ==> init[..i] == calls[..i] && init[i] == calls[i];
      LeakStays(start, init);
      match calls[|calls| - 1]
      case EnterCall(vars) => EnterKeepsLeak(before, vars);
      case ExitCall(i) => ExitKeepsLeak(before, i);
    }
  }

  /** On an idle thread the depth is then one with no entry to close, and a scope opened and closed correctly
  changes nothing of that. */
  lemma {:induction false} ScopeAfterPanic(env: Env, bad: seq<Change>, vars: seq<Change>)
    requires !AllValid(bad) && AllValid(vars)
    ensures var s := Enter(Fresh(env), bad).0;
      && s.local == Local(1, true, [])
      && Exit(Enter(s, vars).0, 0) == s
  {
    var s := Enter(Fresh(env), bad).0;
    var t := Enter(s, vars).0;
    assert vars[..|vars|] == vars;
    UndoOverlay(s.env, vars);
    var marked := Mark(t.local.stack, 0);
    assert marked[..0] == [];
    assert PopFinished(marked) == PopFinished(marked[..0]);
    assert UndoDownTo(t.env, marked, 0) == Undo(t.env, marked[0].saved);
  }
}
