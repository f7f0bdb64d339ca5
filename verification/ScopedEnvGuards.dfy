/** Guards: each opening hands out one guard that remembers its index, and dropping it closes that index.
As long as each guard is dropped once, in whatever order, no exit takes the reset path. */
module ScopedEnvGuards {
  import opened ScopedEnvSpec

  /** live maps each undropped guard to the index it carries; owner records, per stack entry, the guard it
  was opened for. */
  datatype Session = Session(state: State, live: map<nat, nat>, owner: seq<nat>, issued: nat)

  datatype GuardOp = Open(vars: seq<Change>) | Drop(guard: nat)

  predicate Allowed(s: Session, op: GuardOp) {
    match op
    case Open(vars) => AllValid(vars)
    case Drop(guard) => guard in s.live
  }

  function Step(s: Session, op: GuardOp): Session
    requires Allowed(s, op)
  {
    match op
    case Open(vars) =>
      var (state, entered) := Enter(s.state, vars);
      Session(state, s.live[s.issued := entered.index], s.owner + [s.issued], s.issued + 1)
    case Drop(guard) =>
      var state := Exit(s.state, s.live[guard]);
      Session(state, s.live - {guard}, Clip(s.owner, |state.local.stack|), s.issued)
  }

  function Clip(owner: seq<nat>, n: nat): seq<nat> {
    if n <= |owner| then owner[..n] else owner
  }

  function Begin(env: Env): Session {
    Session(Fresh(env), map[], [], 0)
  }

  /** Live guards and unfinished entries name each other. */
  predicate Matched(s: Session) {
    var stack := s.state.local.stack;
    && |s.owner| == |stack|
    && (forall g :: g in s.live ==>
          && g < s.issued && s.live[g] < |stack|
          && !stack[s.live[g]].finished && s.owner[s.live[g]] == g)
    && (forall i :: 0 <= i < |stack| && !stack[i].finished ==> s.owner[i] in s.live && s.live[s.owner[i]] == i)
  }

  ghost predicate GuardInv(env: Env, s: Session) {
    Inv(env, s.state) && Matched(s)
  }

  lemma {:induction false} LiveGuardHasDepth(env: Env, s: Session, guard: nat)
    requires GuardInv(env, s) && guard in s.live
    ensures s.state.local.depth > 0 && Names(s.state.local, s.live[guard])
  {
    IdleIsBase(env, s.state);
  }

  lemma {:induction false} OpenKeepsMatched(s: Session, vars: seq<Change>)
    requires Matched(s) && AllValid(vars)
    ensures Matched(Step(s, Open(vars)))
  {
    EnterValid(s.state, vars);
    var s' := Step(s, Open(vars));
    assert s.issued !in s.live;
    assert s'.state.local.stack[..|s.owner|] == s.state.local.stack;
  }

  lemma {:induction false} DropKeepsMatched(s: Session, guard: nat)
    requires Matched(s) && guard in s.live && s.state.local.depth > 0
    ensures Matched(Step(s, Drop(guard)))
  {
    var index, stack := s.live[guard], s.state.local.stack;
    var marked := Mark(stack, index);
    var rest := PopFinished(marked);
    var s' := Step(s, Drop(guard));
    assert s'.state.local.stack == rest == marked[..|rest|];
    assert s'.owner == s.owner[..|rest|];
    forall g | g in s'.live
      ensures s'.live[g] < |rest| && !rest[s'.live[g]].finished && s'.owner[s'.live[g]] == g
    {
      assert !marked[s.live[g]].finished;
    }
    forall i | 0 <= i < |rest| && !rest[i].finished
      ensures s'.owner[i] in s'.live && s'.live[s'.owner[i]] == i
    {
      assert i != index && !stack[i].finished;
    }
  }

  lemma {:induction false} StepKeepsGuards(env: Env, s: Session, op: GuardOp)
    requires GuardInv(env, s) && Allowed(s, op)
    ensures GuardInv(env, Step(s, op))
  {
    match op
    case Open(vars) =>
      EnterKeepsInv(env, s.state, vars);
      OpenKeepsMatched(s, vars);
    case Drop(guard) =>
      LiveGuardHasDepth(env, s, guard);
      ExitKeepsInv(env, s.state, s.live[guard]);
      DropKeepsMatched(s, guard);
  }

  predicate AllowedRun(s: Session, ops: seq<GuardOp>)
    decreases |ops|
  {
    ops == [] || (Allowed(s, ops[0]) && AllowedRun(Step(s, ops[0]), ops[1..]))
  }

  function RunGuards(s: Session, ops: seq<GuardOp>): Session
    requires AllowedRun(s, ops)
    decreases |ops|
  {
    if ops == [] then s else RunGuards(Step(s, ops[0]), ops[1..])
  }

  lemma {:induction false} RunKeepsGuards(env: Env, s: Session, ops: seq<GuardOp>)
    requires GuardInv(env, s) && AllowedRun(s, ops)
    ensures GuardInv(env, RunGuards(s, ops))
    decreases |ops|
  {
    if ops != [] {
      StepKeepsGuards(env, s, ops[0]);
      RunKeepsGuards(env, Step(s, ops[0]), ops[1..]);
    }
  }

  /** After any run in which each guard is dropped at most once, in any order: every live guard names its own
  unfinished entry, so dropping it is not a reset and lowers the depth by one; and once no guard is
  live the thread is idle and the environment is the original one. */
  lemma {:induction false} GuardsNeverReset(env: Env, ops: seq<GuardOp>)
    requires AllowedRun(Begin(env), ops)
    ensures var s := RunGuards(Begin(env), ops);
      && (forall g :: g in s.live ==>
            && s.state.local.depth > 0
            && Names(s.state.local, s.live[g])
            && s.live[g] < |s.owner| && s.owner[s.live[g]] == g
            && Exit(s.state, s.live[g]).local.depth == s.state.local.depth - 1)
      && (s.live == map[] <==> s.state.local.depth == 0)
      && (s.live == map[] ==> s.state == Fresh(env))
  {
    RunKeepsGuards(env, Begin(env), ops);
    var s := RunGuards(Begin(env), ops);
    forall g | g in s.live
      ensures s.state.local.depth > 0 && Names(s.state.local, s.live[g])
    {
      LiveGuardHasDepth(env, s, g);
    }
    IdleIsBase(env, s.state);
    if s.state.local.stack != [] {
      assert s.owner[|s.owner| - 1] in s.live;
    } else {
      assert s.live.Keys == {};
    }
  }
}
