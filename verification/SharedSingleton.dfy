/** The lazily bootstrapped cluster shared by all tests of a process: a three-state slot behind a mutex. */
module SharedSingleton {
  import opened Wrappers

  type Handle = nat
  type ErrorKind = nat

  datatype Slot = Uninitialised | Initialised(handle: Handle) | Failed(kind: ErrorKind)

  /** What an attempt to start the cluster does; a panic unwinds out of the call. */
  datatype Bootstrap = Started(handle: Handle) | Errored(kind: ErrorKind) | Panicked

  /** None when the caller panicked. */
  type Reply = Option<Result<Handle, ErrorKind>>

  /** The body of the call, run with the mutex held; attempt is what a bootstrap would do if one were made. */
  function Resolve(slot: Slot, attempt: Bootstrap): (Slot, Reply) {
    match slot
    case Initialised(h) => (slot, Some(Ok(h)))
    case Failed(k) => (slot, Some(Err(k)))
    case Uninitialised =>
      match attempt
      case Started(h) => (Initialised(h), Some(Ok(h)))
      case Errored(k) => (Failed(k), Some(Err(k)))
      case Panicked => (slot, None)
  }

  /** The only answer the slot still allows. */
  function Answer(slot: Slot): Reply {
    match slot
    case Uninitialised => None
    case Initialised(h) => Some(Ok(h))
    case Failed(k) => Some(Err(k))
  }

  /** The slot together with the number of bootstraps begun and, for the specification, the replies given. */
  class SharedSlot {
    var state: Slot
    var bootstraps: nat
    ghost var replies: seq<Reply>

    /** Callers that got a reply all got the one that the slot holds. */
    ghost predicate Valid()
      reads this
    {
      forall i :: 0 <= i < |replies| ==> replies[i] == None || replies[i] == Answer(state)
    }

    constructor ()
      ensures Valid() && state == Uninitialised && bootstraps == 0 && replies == []
    {
      state, bootstraps, replies := Uninitialised, 0, [];
    }

    /** Called with the mutex held.  The reply is the slot's, an answered slot never changes, and only an
    unanswered one begins a bootstrap, whose result it takes on. */
    method SharedClusterHandle(attempt: Bootstrap) returns (reply: Reply)
      requires Valid()
      modifies this
      ensures Valid() && replies == old(replies) + [reply]
      ensures reply == Answer(state)
      ensures !old(state).Uninitialised? ==> state == old(state) && bootstraps == old(bootstraps)
      ensures old(state).Uninitialised? ==>
        && bootstraps == old(bootstraps) + 1
        && (state.Initialised? <==> attempt.Started?) && (state.Initialised? ==> state.handle == attempt.handle)
        && (state.Failed? <==> attempt.Errored?) && (state.Failed? ==> state.kind == attempt.kind)
      ensures (state, reply) == Resolve(old(state), attempt)  // what the interleavings below are made of
    {
      match state {
        case Initialised(handle) =>
          reply := Some(Ok(handle));
        case Failed(kind) =>
          reply := Some(Err(kind));
        case Uninitialised =>
          bootstraps := bootstraps + 1;
          match attempt {
            case Started(handle) =>
              state := Initialised(handle);
              reply := Some(Ok(handle));
            case Errored(kind) =>
              state := Failed(kind);
              reply := Some(Err(kind));
            case Panicked =>
              reply := None;
          }
      }
      replies := replies + [reply];
    }
  }

  // ---------- all callers ----------

  datatype Caller = Waiting | Holding | Returned(reply: Reply)

  datatype World = World(callers: seq<Caller>, holder: Option<nat>, slot: Slot, completed: nat)

  datatype Event = Lock(caller: nat) | Finish(caller: nat, attempt: Bootstrap)

  predicate Enabled(w: World, e: Event) {
    && e.caller < |w.callers|
    && match e
       case Lock(c) => w.callers[c] == Waiting && w.holder == None
       case Finish(c, _) => w.callers[c] == Holding
  }

  /** A panicking caller gives the mutex up poisoned, and the next one takes it all the same. */
  function Next(w: World, e: Event): World
    requires Enabled(w, e)
  {
    match e
    case Lock(c) => w.(callers := w.callers[c := Holding], holder := Some(c))
    case Finish(c, attempt) =>
      var (slot, reply) := Resolve(w.slot, attempt);
      var completes := w.slot.Uninitialised? && !attempt.Panicked?;
      World(w.callers[c := Returned(reply)], None, slot, if completes then w.completed + 1 else w.completed)
  }

  predicate Possible(w: World, run: seq<Event>)
    decreases |run|
  {
    run == [] || (Enabled(w, run[0]) && Possible(Next(w, run[0]), run[1..]))
  }

  function After(w: World, run: seq<Event>): World
    requires Possible(w, run)
    decreases |run|
  {
    if run == [] then w else After(Next(w, run[0]), run[1..])
  }

  function Start(n: nat): World {
    World(seq(n, i => Waiting), None, Uninitialised, 0)
  }

  ghost predicate Inv(w: World) {
    && w.completed == (if w.slot.Uninitialised? then 0 else 1)
    && (forall c :: 0 <= c < |w.callers| ==> (w.callers[c] == Holding <==> w.holder == Some(c)))
    && (forall c :: 0 <= c < |w.callers| && w.callers[c].Returned? ==>
          w.callers[c].reply == None || w.callers[c].reply == Answer(w.slot))
  }

  lemma {:induction false} RunKeepsInv(w: World, run: seq<Event>)
    requires Inv(w) && Possible(w, run)
    ensures Inv(After(w, run))
    decreases |run|
  {
    if run != [] {
      RunKeepsInv(Next(w, run[0]), run[1..]);
    }
  }

  predicate Answered(c: Caller) {
    c.Returned? && c.reply.Some?
  }

  /** In every interleaving, panics included: at most one bootstrap completes, and all callers that return get
  the same reference or the same kind of error, never a mixture. */
  lemma {:induction false} OneAnswerForAll(n: nat, run: seq<Event>, c: nat, d: nat)
    requires Possible(Start(n), run)
    requires c < |After(Start(n), run).callers| && d < |After(Start(n), run).callers|
    ensures var w := After(Start(n), run);
      && w.completed <= 1
      && (Answered(w.callers[c]) && Answered(w.callers[d]) ==>
            w.callers[c].reply == w.callers[d].reply && w.completed == 1)
  {
    RunKeepsInv(Start(n), run);
  }

  /** And nobody is left behind: while a caller has not returned, some caller can step. */
  lemma {:induction false} SomeoneCanStep(n: nat, run: seq<Event>, c: nat)
    requires Possible(Start(n), run)
    requires c < |After(Start(n), run).callers| && !After(Start(n), run).callers[c].Returned?
    ensures exists e :: Enabled(After(Start(n), run), e)
  {
    HolderIsCaller(Start(n), run);
    RunKeepsInv(Start(n), run);
    var w := After(Start(n), run);
    var e := match w.holder
      case Some(h) => Finish(h, Panicked)
      case None => Lock(c);
    assert Enabled(w, e);
  }

  lemma {:induction false} HolderIsCaller(w: World, run: seq<Event>)
    requires Possible(w, run) && (w.holder.Some? ==> w.holder.value < |w.callers|)
    ensures var w' := After(w, run);
      w'.holder.Some? ==> w'.holder.value < |w'.callers|
    decreases |run|
  {
    if run != [] {
      HolderIsCaller(Next(w, run[0]), run[1..]);
    }
  }
}
