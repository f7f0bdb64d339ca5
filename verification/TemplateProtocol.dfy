/** Concurrent calls that make sure a template database exists.

A call takes the write lock of the shard its template's lock entry lives in and keeps it until it returns,
because the entry reference stays alive; then the template's own mutex; then it asks the server, creates the
database and runs the caller's setup.  Only these calls create databases, none drops one, and setup
functions do not call back in. */
module TemplateProtocol {
  import opened Wrappers

  type Name = string

  datatype Outcome = Fine | ServerError | Duplicate | SetupError | SetupPanic

  datatype Call =
    | Waiting(name: Name)       // for the shard
    | Entered(name: Name)       // waiting for the mutex
    | Asking(name: Name)        // database_exists
    | Creating(name: Name)      // create_database
    | SettingUp(name: Name)     // setup_fn
    | Returned(name: Name, outcome: Outcome)

  datatype Step = TakeShard | TakeMutex | Ask | Create | SetupOk | SetupFails | SetupPanics | ServerFails

  /** created and begun count the successful CREATE DATABASE commands and the setups started; finished and
  failed are the templates whose setup ended well, or badly or in a panic. */
  datatype World = World(
    calls: seq<Call>, shards: map<nat, nat>, mutexes: map<Name, nat>, dbs: set<Name>,
    created: multiset<Name>, begun: multiset<Name>, finished: set<Name>, failed: set<Name>)

  datatype Event = Event(call: nat, step: Step)

  predicate HoldsShard(c: Call) {
    !c.Waiting? && !c.Returned?
  }

  predicate HoldsMutex(c: Call) {
    HoldsShard(c) && !c.Entered?
  }

  predicate Enabled(shard: Name -> nat, w: World, e: Event) {
    && e.call < |w.calls|
    && var c := w.calls[e.call];
       match e.step
       case TakeShard => c.Waiting? && shard(c.name) !in w.shards
       case TakeMutex => c.Entered? && c.name !in w.mutexes
       case Ask => c.Asking?
       case Create => c.Creating?
       case SetupOk => c.SettingUp?
       case SetupFails => c.SettingUp?
       case SetupPanics => c.SettingUp?
       case ServerFails => c.Asking? || c.Creating?
  }

  /** Returning drops the mutex guard and then the entry reference, and so does a panic of the setup, after which the
  mutex is poisoned and the next call takes it all the same. */
  function Return(shard: Name -> nat, w: World, e: Event, outcome: Outcome): World
    requires e.call < |w.calls|
  {
    var name := w.calls[e.call].name;
    w.(calls := w.calls[e.call := Returned(name, outcome)],
       mutexes := w.mutexes - {name},
       shards := w.shards - {shard(name)})
  }

  function Goto(w: World, e: Event, c: Call): World
    requires e.call < |w.calls|
  {
    w.(calls := w.calls[e.call := c])
  }

  function Next(shard: Name -> nat, w: World, e: Event): World
    requires Enabled(shard, w, e)
  {
    var name := w.calls[e.call].name;
    match e.step
    case TakeShard => Goto(w, e, Entered(name)).(shards := w.shards[shard(name) := e.call])
    case TakeMutex => Goto(w, e, Asking(name)).(mutexes := w.mutexes[name := e.call])
    case Ask => if name in w.dbs then Return(shard, w, e, Fine) else Goto(w, e, Creating(name))
    case Create =>
      if name in w.dbs then Return(shard, w, e, Duplicate)
      else Goto(w, e, SettingUp(name)).(
        dbs := w.dbs + {name}, created := w.created + multiset{name}, begun := w.begun + multiset{name})
    case SetupOk => Return(shard, w, e, Fine).(finished := w.finished + {name})
    case SetupFails => Return(shard, w, e, SetupError).(failed := w.failed + {name})
    case SetupPanics => Return(shard, w, e, SetupPanic).(failed := w.failed + {name})
    case ServerFails => Return(shard, w, e, ServerError)
  }

  // ---------- invariant ----------

  ghost predicate LockInv(shard: Name -> nat, w: World) {
    && (forall i :: 0 <= i < |w.calls| && HoldsShard(w.calls[i]) ==>
          shard(w.calls[i].name) in w.shards && w.shards[shard(w.calls[i].name)] == i)
    && (forall i :: 0 <= i < |w.calls| && HoldsMutex(w.calls[i]) ==>
          w.calls[i].name in w.mutexes && w.mutexes[w.calls[i].name] == i)
    && (forall s :: s in w.shards ==>
          w.shards[s] < |w.calls| && HoldsShard(w.calls[w.shards[s]]) && shard(w.calls[w.shards[s]].name) == s)
    && (forall n :: n in w.mutexes ==>
          w.mutexes[n] < |w.calls| && HoldsMutex(w.calls[w.mutexes[n]]) && w.calls[w.mutexes[n]].name == n)
  }

  ghost predicate InSetup(w: World, n: Name) {
    exists i :: 0 <= i < |w.calls| && w.calls[i] == SettingUp(n)
  }

  ghost predicate CallInv(initial: set<Name>, w: World, c: Call) {
    match c
    case Creating(n) => n !in w.dbs
    case SettingUp(n) => n in w.dbs && n !in initial + w.finished + w.failed
    case Returned(n, outcome) => outcome != Duplicate && (outcome == Fine ==> n in initial + w.finished + w.failed)
    case _ => true
  }

  ghost predicate HistoryInv(initial: set<Name>, w: World) {
    && initial <= w.dbs
    && (forall n :: w.created[n] == w.begun[n] == if n in w.dbs && n !in initial then 1 else 0)
    && w.finished !! w.failed && (w.finished + w.failed) !! initial && w.finished + w.failed <= w.dbs
    && (forall n :: n in w.dbs ==> n in initial + w.finished + w.failed || InSetup(w, n))
  }

  ghost predicate Inv(shard: Name -> nat, initial: set<Name>, w: World) {
    && LockInv(shard, w)
    && HistoryInv(initial, w)
    && forall i :: 0 <= i < |w.calls| ==> CallInv(initial, w, w.calls[i])
  }

  /** Two calls past the shard lock are in different shards. */
  lemma {:induction false} OnePerShard(shard: Name -> nat, w: World, i: nat, j: nat)
    requires LockInv(shard, w) && i < |w.calls| && j < |w.calls| && i != j
    requires HoldsShard(w.calls[i]) && HoldsShard(w.calls[j])
    ensures shard(w.calls[i].name) != shard(w.calls[j].name)
  {
  }

  lemma {:induction false} ReturnKeepsLocks(shard: Name -> nat, w: World, e: Event, outcome: Outcome)
    requires LockInv(shard, w) && e.call < |w.calls| && HoldsMutex(w.calls[e.call])
    ensures LockInv(shard, Return(shard, w, e, outcome))
  {
    var w', name := Return(shard, w, e, outcome), w.calls[e.call].name;
    forall i | 0 <= i < |w'.calls| && HoldsShard(w'.calls[i])
      ensures shard(w'.calls[i].name) in w'.shards && w'.shards[shard(w'.calls[i].name)] == i
      ensures w'.calls[i].name != name
    {
      OnePerShard(shard, w, i, e.call);
    }
  }

  lemma {:induction false} MovePastLocks(shard: Name -> nat, w: World, w': World, e: Event)
    requires LockInv(shard, w) && e.call < |w.calls| && HoldsMutex(w.calls[e.call])
    requires |w'.calls| == |w.calls| && HoldsMutex(w'.calls[e.call]) && w'.calls[e.call].name == w.calls[e.call].name
    requires forall i :: 0 <= i < |w.calls| && i != e.call ==> w'.calls[i] == w.calls[i]
    requires w'.shards == w.shards && w'.mutexes == w.mutexes
    ensures LockInv(shard, w')
  {
    forall i | 0 <= i < |w'.calls|
      ensures w'.calls[i].name == w.calls[i].name
      ensures HoldsShard(w'.calls[i]) <==> HoldsShard(w.calls[i])
      ensures HoldsMutex(w'.calls[i]) <==> HoldsMutex(w.calls[i])
    {
    }
  }

  lemma {:induction false} TakeShardKeepsLocks(shard: Name -> nat, w: World, e: Event)
    requires LockInv(shard, w) && e.step == TakeShard && Enabled(shard, w, e)
    ensures LockInv(shard, Next(shard, w, e))
  {
  }

  lemma {:induction false} TakeMutexKeepsLocks(shard: Name -> nat, w: World, e: Event)
    requires LockInv(shard, w) && e.step == TakeMutex && Enabled(shard, w, e)
    ensures LockInv(shard, Next(shard, w, e))
  {
    var w' := Next(shard, w, e);
    forall i | 0 <= i < |w'.calls|
      ensures w'.calls[i].name == w.calls[i].name && (HoldsShard(w'.calls[i]) <==> HoldsShard(w.calls[i]))
      ensures i != e.call ==> w'.calls[i] == w.calls[i]
    {
    }
  }

  lemma {:induction false} LocksKept(shard: Name -> nat, w: World, e: Event)
    requires LockInv(shard, w) && Enabled(shard, w, e)
    ensures LockInv(shard, Next(shard, w, e))
  {
    var w' := Next(shard, w, e);
    if e.step == TakeShard {
      TakeShardKeepsLocks(shard, w, e);
    } else if e.step == TakeMutex {
      TakeMutexKeepsLocks(shard, w, e);
    } else if w'.calls[e.call].Returned? {
      ReturnKeepsLocks(shard, w, e, w'.calls[e.call].outcome);
      assert w' == Return(shard, w, e, w'.calls[e.call].outcome).(
        dbs := w'.dbs, finished := w'.finished, failed := w'.failed);
    } else {
      MovePastLocks(shard, w, w', e);
    }
  }

  lemma {:induction false} HistoryKept(shard: Name -> nat, initial: set<Name>, w: World, e: Event)
    requires Inv(shard, initial, w) && Enabled(shard, w, e)
    ensures HistoryInv(initial, Next(shard, w, e))
  {
    var w', c := Next(shard, w, e), w.calls[e.call];
    assert CallInv(initial, w, c);
    forall n | n in w'.dbs && n !in initial + w'.finished + w'.failed
      ensures InSetup(w', n)
    {
      if n in w.dbs {
        var i :| 0 <= i < |w.calls| && w.calls[i] == SettingUp(n);
        assert i != e.call;
        assert w'.calls[i] == SettingUp(n);
      } else {
        assert w'.calls[e.call] == SettingUp(n);
      }
    }
  }

  lemma {:induction false} CallsKept(shard: Name -> nat, initial: set<Name>, w: World, e: Event, i: nat)
    requires Inv(shard, initial, w) && Enabled(shard, w, e) && i < |w.calls|
    ensures CallInv(initial, Next(shard, w, e), Next(shard, w, e).calls[i])
  {
    var w', c := Next(shard, w, e), w.calls[e.call];
    assert CallInv(initial, w, c) && CallInv(initial, w, w.calls[i]);
    if i == e.call {
      if e.step == Ask && c.name in w.dbs && InSetup(w, c.name) {
        var j :| 0 <= j < |w.calls| && w.calls[j] == SettingUp(c.name);
        OnePerShard(shard, w, i, j);
      }
    } else if HoldsShard(w.calls[i]) && HoldsShard(c) {
      OnePerShard(shard, w, i, e.call);
    }
  }

  // ---------- whole runs ----------

  predicate Possible(shard: Name -> nat, w: World, run: seq<Event>)
    decreases |run|
  {
    run == [] || (Enabled(shard, w, run[0]) && Possible(shard, Next(shard, w, run[0]), run[1..]))
  }

  function After(shard: Name -> nat, w: World, run: seq<Event>): World
    requires Possible(shard, w, run)
    decreases |run|
  {
    if run == [] then w else After(shard, Next(shard, w, run[0]), run[1..])
  }

  function Start(names: seq<Name>, dbs: set<Name>): World {
    World(
      seq(|names|, i requires 0 <= i < |names| => Waiting(names[i])), map[], map[], dbs, multiset{}, multiset{}, {}, {})
  }

  lemma {:induction false} RunKeepsInv(shard: Name -> nat, initial: set<Name>, w: World, run: seq<Event>)
    requires Inv(shard, initial, w) && Possible(shard, w, run)
    ensures Inv(shard, initial, After(shard, w, run))
    decreases |run|
  {
    if run != [] {
      var w' := Next(shard, w, run[0]);
      LocksKept(shard, w, run[0]);
      HistoryKept(shard, initial, w, run[0]);
      forall i | 0 <= i < |w'.calls|
        ensures CallInv(initial, w', w'.calls[i])
      {
        CallsKept(shard, initial, w, run[0], i);
      }
      RunKeepsInv(shard, initial, w', run[1..]);
    }
  }

  /** Over all interleavings: a template is created at most once and its setup starts at most once, no call
  fails with a duplicate, and a successful return finds the template set up, unless it was there from the
  start or its setup had failed. */
  lemma {:induction false} SetUpOnce(
      shard: Name -> nat, names: seq<Name>, dbs: set<Name>, run: seq<Event>, i: nat, n: Name)
    requires Possible(shard, Start(names, dbs), run) && i < |After(shard, Start(names, dbs), run).calls|
    ensures var w := After(shard, Start(names, dbs), run);
      && w.created[n] <= 1 && w.begun[n] <= 1
      && w.calls[i] != Returned(n, Duplicate)
      && (w.calls[i] == Returned(n, Fine) && n !in dbs ==> w.created[n] == 1 && (n in w.finished <==> n !in w.failed))
  {
    RunKeepsInv(shard, dbs, Start(names, dbs), run);
    var w := After(shard, Start(names, dbs), run);
    assert CallInv(dbs, w, w.calls[i]);
  }

  // ---------- what a call returns ----------

  /** The last step of a run that is the given call's own. */
  function LastOwn(run: seq<Event>, i: nat): Option<Step>
    decreases |run|
  {
    if run == [] then None
    else if LastOwn(run[1..], i).Some? then LastOwn(run[1..], i)
    else if run[0].call == i then Some(run[0].step)
    else None
  }

  predicate Returns(c: Call, outcome: Outcome) {
    c.Returned? && c.outcome == outcome
  }

  /** A call's last step and what it has returned tell each other. */
  predicate Told(step: Step, c: Call) {
    && (Returns(c, ServerError) <==> step == ServerFails)
    && (Returns(c, SetupError) <==> step == SetupFails)
    && (Returns(c, SetupPanic) <==> step == SetupPanics)
    && (step == SetupOk ==> Returns(c, Fine))
    && (Returns(c, Fine) ==> step == SetupOk || step == Ask)
    && (c.Returned? ==> step != TakeShard && step != TakeMutex)
  }

  lemma {:induction false} StepTells(shard: Name -> nat, w: World, e: Event)
    requires Enabled(shard, w, e)
    ensures |Next(shard, w, e).calls| == |w.calls|
    ensures Told(e.step, Next(shard, w, e).calls[e.call])
    ensures forall i :: 0 <= i < |w.calls| && i != e.call ==> Next(shard, w, e).calls[i] == w.calls[i]
  {
  }

  lemma {:induction false} RunTells(shard: Name -> nat, w: World, run: seq<Event>, i: nat)
    requires Possible(shard, w, run) && i < |w.calls|
    ensures |After(shard, w, run).calls| == |w.calls|
    ensures match LastOwn(run, i)
      case None => After(shard, w, run).calls[i] == w.calls[i]
      case Some(step) => Told(step, After(shard, w, run).calls[i])
    decreases |run|
  {
    if run != [] {
      StepTells(shard, w, run[0]);
      RunTells(shard, Next(shard, w, run[0]), run[1..], i);
    }
  }

  /** In every run a call fails because of the server, its setup or a panic of it exactly when that was its own last
  step, and a call whose setup succeeded returns success. */
  lemma {:induction false} ReturnsTellTheLastStep(
      shard: Name -> nat, names: seq<Name>, dbs: set<Name>, run: seq<Event>, i: nat)
    requires Possible(shard, Start(names, dbs), run) && i < |names|
    ensures |After(shard, Start(names, dbs), run).calls| == |names|
    ensures var c := After(shard, Start(names, dbs), run).calls[i];
      match LastOwn(run, i)
      case None => c == Waiting(names[i])
      case Some(step) => Told(step, c)
  {
    RunTells(shard, Start(names, dbs), run, i);
  }

  lemma {:induction false} LastOwnIsThere(run: seq<Event>, i: nat)
    ensures LastOwn(run, i).Some? ==> Event(i, LastOwn(run, i).value) in run
    decreases |run|
  {
    if run != [] {
      LastOwnIsThere(run[1..], i);
      assert Event(run[0].call, run[0].step) == run[0];
    }
  }

  /** A run in which neither the server nor a setup fails has only successful returns. */
  lemma {:induction false} WithoutFaultsAllSucceed(
      shard: Name -> nat, names: seq<Name>, dbs: set<Name>, run: seq<Event>, i: nat)
    requires Possible(shard, Start(names, dbs), run) && i < |names|
    requires forall e :: e in run ==> e.step != ServerFails && e.step != SetupFails && e.step != SetupPanics
    ensures |After(shard, Start(names, dbs), run).calls| == |names|
    ensures var c := After(shard, Start(names, dbs), run).calls[i];
      c.Returned? ==> c.outcome == Fine
  {
    ReturnsTellTheLastStep(shard, names, dbs, run, i);
    LastOwnIsThere(run, i);
    var c := After(shard, Start(names, dbs), run).calls[i];
    if c.Returned? {
      SetUpOnce(shard, names, dbs, run, i, c.name);
    }
  }

  ghost predicate FinishedReturned(w: World) {
    forall n :: n in w.finished ==> exists i :: 0 <= i < |w.calls| && w.calls[i] == Returned(n, Fine)
  }

  lemma {:induction false} FinishedStays(shard: Name -> nat, w: World, run: seq<Event>)
    requires Possible(shard, w, run) && FinishedReturned(w)
    ensures FinishedReturned(After(shard, w, run))
    decreases |run|
  {
    if run != [] {
      var w' := Next(shard, w, run[0]);
      StepTells(shard, w, run[0]);
      forall n | n in w'.finished
        ensures exists i :: 0 <= i < |w'.calls| && w'.calls[i] == Returned(n, Fine)
      {
        if n in w.finished {
          var i :| 0 <= i < |w.calls| && w.calls[i] == Returned(n, Fine);
          assert i != run[0].call && w'.calls[i] == w.calls[i];
        } else {
          assert w'.calls[run[0].call] == Returned(n, Fine);
        }
      }
      FinishedStays(shard, w', run[1..]);
    }
  }

  /** Every template that was set up has a call that returned success. */
  lemma {:induction false} SetUpIsReported(
      shard: Name -> nat, names: seq<Name>, dbs: set<Name>, run: seq<Event>, n: Name)
    requires Possible(shard, Start(names, dbs), run) && n in After(shard, Start(names, dbs), run).finished
    ensures var w := After(shard, Start(names, dbs), run);
      exists i :: 0 <= i < |w.calls| && w.calls[i] == Returned(n, Fine)
  {
    FinishedStays(shard, Start(names, dbs), run);
  }

  // ---------- who may enter ----------

  /** A waiting call may enter exactly when no call in progress has its shard, whatever the templates' names. */
  lemma {:induction false} EntersIffShardFree(
      shard: Name -> nat, names: seq<Name>, dbs: set<Name>, run: seq<Event>, i: nat)
    requires Possible(shard, Start(names, dbs), run) && i < |After(shard, Start(names, dbs), run).calls|
    requires After(shard, Start(names, dbs), run).calls[i].Waiting?
    ensures var w := After(shard, Start(names, dbs), run);
      Enabled(shard, w, Event(i, TakeShard)) <==>
        forall j :: 0 <= j < |w.calls| && HoldsShard(w.calls[j]) ==> shard(w.calls[j].name) != shard(w.calls[i].name)
  {
    RunKeepsInv(shard, dbs, Start(names, dbs), run);
  }

  /** What the first of two calls does until its setup runs. */
  const OPENING: seq<Event> := [Event(0, TakeShard), Event(0, TakeMutex), Event(0, Ask), Event(0, Create)]

  function InFirstSetup(shard: Name -> nat, a: Name, b: Name): World {
    World([SettingUp(a), Waiting(b)], map[shard(a) := 0], map[a := 0], {a}, multiset{a}, multiset{a}, {}, {})
  }

  lemma {:induction false} Opens(shard: Name -> nat, a: Name, b: Name, rest: seq<Event>)
    requires Possible(shard, InFirstSetup(shard, a, b), rest)
    ensures Possible(shard, Start([a, b], {}), OPENING + rest)
    ensures After(shard, Start([a, b], {}), OPENING + rest) == After(shard, InFirstSetup(shard, a, b), rest)
  {
    var run, w0 := OPENING + rest, Start([a, b], {});
    assert w0.calls == [Waiting(a), Waiting(b)];
    var w1 := Next(shard, w0, run[0]);
    var w2 := Next(shard, w1, run[1]);
    var w3 := Next(shard, w2, run[2]);
    assert Next(shard, w3, run[3]) == InFirstSetup(shard, a, b);
    assert run[4..] == rest;
    Unfold(shard, w3, run[3..]);
    Unfold(shard, w2, run[2..]);
    Unfold(shard, w1, run[1..]);
    Unfold(shard, w0, run);
  }

  /** So two calls for different templates do not run at the same time when their names share a shard, and do
  when they do not: while the first one's setup runs, the second may enter iff the shards differ. */
  lemma {:induction false} OtherTemplateMayWait(shard: Name -> nat, a: Name, b: Name)
    requires a != b
    ensures Possible(shard, Start([a, b], {}), OPENING)
    ensures var w := After(shard, Start([a, b], {}), OPENING);
      w.calls == [SettingUp(a), Waiting(b)] && (Enabled(shard, w, Event(1, TakeShard)) <==> shard(a) != shard(b))
  {
    Opens(shard, a, b, []);
    assert OPENING + [] == OPENING;
  }

  /** Whoever holds the shard finds the mutex free, so the mutex never makes a call wait; and while any call
  has not returned, some call can step. */
  lemma {:induction false} NoDeadlock(shard: Name -> nat, names: seq<Name>, dbs: set<Name>, run: seq<Event>, i: nat)
    requires Possible(shard, Start(names, dbs), run) && i < |After(shard, Start(names, dbs), run).calls|
    ensures var w := After(shard, Start(names, dbs), run);
      && (w.calls[i].Entered? ==> Enabled(shard, w, Event(i, TakeMutex)))
      && (!w.calls[i].Returned? ==> exists e :: Enabled(shard, w, e))
  {
    RunKeepsInv(shard, dbs, Start(names, dbs), run);
    var w := After(shard, Start(names, dbs), run);
    var c := w.calls[i];
    if c.Entered? && c.name in w.mutexes {
      OnePerShard(shard, w, i, w.mutexes[c.name]);
    }
    if !c.Returned? {
      var j := if c.Waiting? && shard(c.name) in w.shards then w.shards[shard(c.name)] else i;
      var d := w.calls[j];
      if d.Entered? && d.name in w.mutexes {
        OnePerShard(shard, w, j, w.mutexes[d.name]);
      }
      var step := match d
        case Waiting(_) => TakeShard
        case Entered(_) => TakeMutex
        case Asking(_) => Ask
        case Creating(_) => Create
        case _ => SetupOk;
      assert Enabled(shard, w, Event(j, step));
    }
  }

  /** The exception is real: the first caller's setup fails or panics, and the second succeeds with a template that
  nobody set up. */
  function FirstCall(panics: bool): seq<Event> {
    OPENING + [Event(0, if panics then SetupPanics else SetupFails)]
  }

  const SECOND_RETURNS: seq<Event> := [Event(1, TakeShard), Event(1, TakeMutex), Event(1, Ask)]

  function AfterFailure(n: Name, panics: bool): World {
    World(
      [Returned(n, if panics then SetupPanic else SetupError), Waiting(n)], map[], map[],
      {n}, multiset{n}, multiset{n}, {}, {n})
  }

  lemma {:induction false} FirstFails(shard: Name -> nat, n: Name, panics: bool)
    ensures Possible(shard, Start([n, n], {}), FirstCall(panics))
    ensures After(shard, Start([n, n], {}), FirstCall(panics)) == AfterFailure(n, panics)
  {
    var w, last := InFirstSetup(shard, n, n), [Event(0, if panics then SetupPanics else SetupFails)];
    var w' := Next(shard, w, last[0]);
    assert w' == AfterFailure(n, panics);
    assert last[1..] == [] && Possible(shard, w', []) && After(shard, w', []) == w';
    Unfold(shard, w, last);
    Opens(shard, n, n, last);
  }

  lemma {:induction false} FailedSetupIsTakenForDone(shard: Name -> nat, n: Name, panics: bool)
    ensures Possible(shard, AfterFailure(n, panics), SECOND_RETURNS)
    ensures var w := AfterFailure(n, panics);
      After(shard, w, SECOND_RETURNS) == w.(calls := [w.calls[0], Returned(n, Fine)])
  {
    var w0 := AfterFailure(n, panics);
    var w1 := Next(shard, w0, SECOND_RETURNS[0]);
    var w2 := Next(shard, w1, SECOND_RETURNS[1]);
    var w3 := Next(shard, w2, SECOND_RETURNS[2]);
    assert w3.shards == map[] && w3.mutexes == map[];
    assert Possible(shard, w3, []) && After(shard, w3, []) == w3;
    Unfold(shard, w2, SECOND_RETURNS[2..]);
    Unfold(shard, w1, SECOND_RETURNS[1..]);
    Unfold(shard, w0, SECOND_RETURNS);
  }

  lemma {:induction false} Unfold(shard: Name -> nat, w: World, run: seq<Event>)
    requires run != [] && Enabled(shard, w, run[0]) && Possible(shard, Next(shard, w, run[0]), run[1..])
    ensures Possible(shard, w, run)
    ensures After(shard, w, run) == After(shard, Next(shard, w, run[0]), run[1..])
  {
  }
}
