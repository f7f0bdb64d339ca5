/** What becomes of populations and installations: without faults they succeed, and a link that an earlier attempt
left behind stops every later one. */
module CacheProgress {
  import opened Wrappers
  import opened Disk
  import opened CacheProtocol

  // ---------- a link left behind ----------

  /** The entry of v has no marker but a link of the source, and whoever writes it still has that link to make. */
  ghost predicate Stuck(sources: Sources, w: World, v: Version, q: Path) {
    && v in sources && q in sources[v] && sources[v][q].Link?
    && MARKER !in Entry(w.cache, v) && q in Entry(w.cache, v)
    && forall pid :: 0 <= pid < |w.procs| ==>
         match w.procs[pid]
         case Writing(u, todo) => u == v ==> q in todo
         case Tearing(u, todo, p) => u == v ==> q in todo && p != q
         case _ => true
  }

  lemma {:induction false} StuckStays(sources: Sources, w: World, pid: nat, step: Step, v: Version, q: Path)
    requires WellSourced(sources) && Stuck(sources, w, v, q) && Enabled(sources, w, pid, step)
    ensures Stuck(sources, Next(sources, w, pid, step), v, q)
    ensures Next(sources, w, pid, step).populated[v] == w.populated[v]
  {
    OtherLocks(sources, w, pid, step);
    if !Writes(step) {
      QuietFrame(sources, w, pid, step);
    }
  }

  lemma {:induction false} StuckForGood(sources: Sources, w: World, run: seq<Event>, v: Version, q: Path)
    requires WellSourced(sources) && Stuck(sources, w, v, q) && Possible(sources, w, run)
    ensures Stuck(sources, After(sources, w, run), v, q)
    ensures After(sources, w, run).populated[v] == w.populated[v]
    decreases |run|
  {
    if run != [] {
      StuckStays(sources, w, run[0].pid, run[0].step, v, q);
      StuckForGood(sources, Next(sources, w, run[0].pid, run[0].step), run[1..], v, q);
    }
  }

  predicate Writer(p: Proc, v: Version) {
    (p.Writing? || p.Tearing?) && p.v == v
  }

  /** Once nobody is writing an entry without a marker in which a link of the source was made, it is never
  completed, and the version is never populated. */
  lemma {:induction false} LeftoverLinkIsForGood(
      sources: Sources, w0: World, run: seq<Event>, more: seq<Event>, v: Version, q: Path)
    requires Starts(sources, w0) && Possible(sources, w0, run)
    requires Possible(sources, After(sources, w0, run), more)
    requires var w := After(sources, w0, run);
      && v in sources && q in sources[v] && sources[v][q].Link?
      && MARKER !in Entry(w.cache, v) && q in Entry(w.cache, v)
      && forall pid :: 0 <= pid < |w.procs| ==> !Writer(w.procs[pid], v)
    ensures var w' := After(sources, After(sources, w0, run), more);
      !IsComplete(Entry(w'.cache, v)) && w'.populated[v] == 0
  {
    var w := After(sources, w0, run);
    RunKeepsInv(sources, w0, run);
    assert w.populated[v] == 0;
    assert Stuck(sources, w, v, q) by {
      forall pid | 0 <= pid < |w.procs|
        ensures !Writer(w.procs[pid], v)
      {
      }
    }
    StuckForGood(sources, w, more, v, q);
  }

  lemma {:induction false} FinishedStays(sources: Sources, w: World, run: seq<Event>, pid: nat)
    requires Possible(sources, w, run) && pid < |w.procs| && !Running(w.procs[pid])
    ensures pid < |After(sources, w, run).procs| && After(sources, w, run).procs[pid] == w.procs[pid]
    decreases |run|
  {
    if run != [] {
      OtherLocks(sources, w, run[0].pid, run[0].step);
      FinishedStays(sources, Next(sources, w, run[0].pid, run[0].step), run[1..], pid);
    }
  }

  /** The steps that end a process for good: meeting such a link, finding the version complete before populating it, an
  error while populating, and a crash. */
  predicate Ends(w: World, pid: nat, step: Step)
    requires pid < |w.procs|
  {
    var p := w.procs[pid];
    || step.LinkExists? || step.Crash?
    || (step.IoError? && (p.WaitingExclusive? || p.Rechecking? || p.Writing? || p.Tearing?))
    || ((step.Precheck? || step.Recheck?) && (p.Prechecking? || p.Rechecking?) && IsComplete(Entry(w.cache, p.v)))
  }

  /** Such a process gives its lock up: it changes no entry, populates nothing and takes no further step. */
  lemma {:induction false} EndIsFinal(sources: Sources, w: World, pid: nat, step: Step, more: seq<Event>)
    requires Enabled(sources, w, pid, step) && Ends(w, pid, step)
    requires LockOf(w.procs[pid]) == Held(w, pid)
    requires Possible(sources, Next(sources, w, pid, step), more)
    ensures var next := Next(sources, w, pid, step);
      var w' := After(sources, next, more);
      && next.cache == w.cache && next.populated == w.populated && Held(next, pid) == Free
      && pid < |w'.procs| && w'.procs[pid] == (if step.Crash? then Crashed else Done)
      && forall e :: e in more ==> e.pid != pid
  {
    var next := Next(sources, w, pid, step);
    QuietFrame(sources, w, pid, step);
    assert next.procs[pid] == if step.Crash? then Crashed else Done;
    OwnLock(sources, w, pid, step);
    FinishedStays(sources, next, more, pid);
    NoMoreSteps(sources, next, more, pid);
  }

  /** An error while installing makes the process go on as one that found nothing. */
  lemma {:induction false} FailedReaderMisses(sources: Sources, w: World, pid: nat)
    requires Enabled(sources, w, pid, IoError) && LockOf(w.procs[pid]) == Held(w, pid)
    requires w.procs[pid].WaitingShared? || w.procs[pid].Checking? || w.procs[pid].Reading?
    ensures var next := Next(sources, w, pid, IoError);
      && pid < |next.procs| && next.procs[pid] == Missed && Held(next, pid) == Free && next.cache == w.cache
      && forall v :: v in sources ==> Enabled(sources, next, pid, Download(v))
  {
    OwnLock(sources, w, pid, IoError);
  }

  lemma {:induction false} NoMoreSteps(sources: Sources, w: World, run: seq<Event>, pid: nat)
    requires Possible(sources, w, run) && pid < |w.procs| && !Running(w.procs[pid])
    ensures forall e :: e in run ==> e.pid != pid
    decreases |run|
  {
    if run != [] {
      OtherLocks(sources, w, run[0].pid, run[0].step);
      NoMoreSteps(sources, Next(sources, w, run[0].pid, run[0].step), run[1..], pid);
    }
  }

  // ---------- without faults ----------

  /** By ordinary steps of one process only. */
  ghost predicate Comes(sources: Sources, w: World, pid: nat, w': World) {
    exists run: seq<Event> ::
      && Possible(sources, w, run) && After(sources, w, run) == w'
      && forall e :: e in run ==> e.pid == pid && Ordinary(e.step)
  }

  lemma {:induction false} ComesStill(sources: Sources, w: World, pid: nat)
    ensures Comes(sources, w, pid, w)
  {
    assert Possible(sources, w, []) && After(sources, w, []) == w;
  }

  lemma {:induction false} ComesBy(sources: Sources, w: World, pid: nat, step: Step, w': World)
    requires Enabled(sources, w, pid, step) && Ordinary(step)
    requires Comes(sources, Next(sources, w, pid, step), pid, w')
    ensures Comes(sources, w, pid, w')
  {
    var next := Next(sources, w, pid, step);
    var run: seq<Event> :| Possible(sources, next, run) && After(sources, next, run) == w'
      && forall e :: e in run ==> e.pid == pid && Ordinary(e.step);
    var all := [Event(pid, step)] + run;
    assert all[1..] == run && all[0] == Event(pid, step);
    assert Possible(sources, w, all) && After(sources, w, all) == w';
  }

  /** No link of the source still to be made stands in the entry. */
  ghost predicate LinksFree(sources: Sources, w: World, v: Version, todo: set<Path>) {
    v in sources && forall q :: q in todo && q in sources[v] && sources[v][q].Link? ==> q !in Entry(w.cache, v)
  }

  predicate PopulatedBy(w: World, w': World, pid: nat, v: Version) {
    && pid < |w'.procs| && w'.procs[pid] == Done
    && IsComplete(Entry(w'.cache, v))
    && w'.populated == w.populated + multiset{v}
  }

  lemma {:induction false} MarksAndLeaves(sources: Sources, w: World, pid: nat) returns (w': World)
    requires WellSourced(sources) && Inv(sources, w) && pid < |w.procs|
    requires w.procs[pid].Writing? && w.procs[pid].todo == {}
    ensures Comes(sources, w, pid, w') && PopulatedBy(w, w', pid, w.procs[pid].v)
  {
    var v := w.procs[pid].v;
    var mid := Next(sources, w, pid, WriteMarker);
    StepKeepsInv(sources, w, pid, WriteMarker);
    MarkerMeansComplete(sources, mid, v);
    w' := Next(sources, mid, pid, Unlock);
    ComesStill(sources, w', pid);
    ComesBy(sources, mid, pid, Unlock, w');
    ComesBy(sources, w, pid, WriteMarker, w');
  }

  /** The world once one node more is in place. */
  ghost predicate OneWritten(sources: Sources, w: World, pid: nat, q: Path, mid: World)
    requires pid < |w.procs| && w.procs[pid].Writing?
  {
    var (v, todo) := (w.procs[pid].v, w.procs[pid].todo);
    && Inv(sources, mid) && |mid.procs| == |w.procs| && mid.populated == w.populated
    && mid.procs[pid] == Writing(v, todo - {q}) && LinksFree(sources, mid, v, todo - {q})
  }

  lemma {:induction false} WritesFile(sources: Sources, w: World, pid: nat, q: Path) returns (mid: World)
    requires WellSourced(sources) && Inv(sources, w) && pid < |w.procs|
    requires w.procs[pid].Writing? && q in w.procs[pid].todo
    requires LinksFree(sources, w, w.procs[pid].v, w.procs[pid].todo)
    requires Get(sources[w.procs[pid].v], q).Some? && sources[w.procs[pid].v][q].File?
    ensures OneWritten(sources, w, pid, q, mid)
    ensures forall w' :: Comes(sources, mid, pid, w') ==> Comes(sources, w, pid, w')
  {
    var step := BeginFile(q, []);
    var torn := Next(sources, w, pid, step);
    StepKeepsInv(sources, w, pid, step);
    mid := Next(sources, torn, pid, EndFile);
    StepKeepsInv(sources, torn, pid, EndFile);
    forall w' | Comes(sources, mid, pid, w')
      ensures Comes(sources, w, pid, w')
    {
      ComesBy(sources, torn, pid, EndFile, w');
      ComesBy(sources, w, pid, step, w');
    }
  }

  lemma {:induction false} WritesOther(sources: Sources, w: World, pid: nat, q: Path) returns (mid: World)
    requires WellSourced(sources) && Inv(sources, w) && pid < |w.procs|
    requires w.procs[pid].Writing? && q in w.procs[pid].todo
    requires LinksFree(sources, w, w.procs[pid].v, w.procs[pid].todo)
    requires Get(sources[w.procs[pid].v], q).Some? && !sources[w.procs[pid].v][q].File?
    ensures OneWritten(sources, w, pid, q, mid)
    ensures forall w' :: Comes(sources, mid, pid, w') ==> Comes(sources, w, pid, w')
  {
    mid := Next(sources, w, pid, WriteNode(q));
    StepKeepsInv(sources, w, pid, WriteNode(q));
    forall w' | Comes(sources, mid, pid, w')
      ensures Comes(sources, w, pid, w')
    {
      ComesBy(sources, w, pid, WriteNode(q), w');
    }
  }

  lemma {:induction false} WritesAll(sources: Sources, w: World, pid: nat) returns (w': World)
    requires WellSourced(sources) && Inv(sources, w) && pid < |w.procs| && w.procs[pid].Writing?
    requires LinksFree(sources, w, w.procs[pid].v, w.procs[pid].todo)
    ensures Comes(sources, w, pid, w') && PopulatedBy(w, w', pid, w.procs[pid].v)
    decreases w.procs[pid].todo
  {
    if w.procs[pid].todo == {} {
      w' := MarksAndLeaves(sources, w, pid);
    } else {
      var q :| q in w.procs[pid].todo;
      assert ProcInv(sources, w.cache, w.procs[pid]);
      var mid;
      if sources[w.procs[pid].v][q].File? {
        mid := WritesFile(sources, w, pid, q);
      } else {
        mid := WritesOther(sources, w, pid, q);
      }
      w' := WritesAll(sources, mid, pid);
    }
  }

  /** A process that missed and downloaded v populates the cache by its own steps, when nobody holds the lock, the
  entry is not complete and no link of the source is in it. */
  lemma {:induction false} PopulationSucceeds(sources: Sources, w: World, pid: nat, v: Version) returns (w': World)
    requires WellSourced(sources) && Inv(sources, w) && pid < |w.procs| && w.procs[pid] == Missed
    requires v in sources && !IsComplete(Entry(w.cache, v)) && Grantable(w, pid, Exclusive(v))
    requires LinksFree(sources, w, v, sources[v].Keys)
    ensures Comes(sources, w, pid, w') && PopulatedBy(w, w', pid, v)
  {
    var w1 := Next(sources, w, pid, Download(v));
    StepKeepsInv(sources, w, pid, Download(v));
    var w2 := Next(sources, w1, pid, Precheck);
    StepKeepsInv(sources, w1, pid, Precheck);
    w' := LocksAndWrites(sources, w2, pid, v);
    ComesBy(sources, w1, pid, Precheck, w');
    ComesBy(sources, w, pid, Download(v), w');
  }

  lemma {:induction false} LocksAndWrites(sources: Sources, w: World, pid: nat, v: Version) returns (w': World)
    requires WellSourced(sources) && Inv(sources, w) && pid < |w.procs| && w.procs[pid] == WaitingExclusive(v)
    requires v in sources && !IsComplete(Entry(w.cache, v)) && Grantable(w, pid, Exclusive(v))
    requires LinksFree(sources, w, v, sources[v].Keys)
    ensures Comes(sources, w, pid, w') && PopulatedBy(w, w', pid, v)
  {
    var w1 := Next(sources, w, pid, TakeExclusive);
    StepKeepsInv(sources, w, pid, TakeExclusive);
    var w2 := Next(sources, w1, pid, Recheck);
    StepKeepsInv(sources, w1, pid, Recheck);
    w' := WritesAll(sources, w2, pid);
    ComesBy(sources, w1, pid, Recheck, w');
    ComesBy(sources, w, pid, TakeExclusive, w');
  }

  lemma {:induction false} ReadsAll(sources: Sources, w: World, pid: nat) returns (w': World)
    requires WellSourced(sources) && Inv(sources, w) && pid < |w.procs| && w.procs[pid].Reading?
    ensures Comes(sources, w, pid, w') && pid < |w'.procs| && w'.cache == w.cache
    ensures var v := w.procs[pid].v;
      v in sources && w'.procs[pid] == Installed(v, Packed(sources[v]))
    decreases w.procs[pid].todo
  {
    if w.procs[pid].todo == {} {
      w' := Next(sources, w, pid, EndRead);
      StepKeepsInv(sources, w, pid, EndRead);
      assert ProcInv(sources, w'.cache, w'.procs[pid]);
      ComesStill(sources, w', pid);
      ComesBy(sources, w, pid, EndRead, w');
    } else {
      var q :| q in w.procs[pid].todo;
      var mid := Next(sources, w, pid, ReadNode(q));
      StepKeepsInv(sources, w, pid, ReadNode(q));
      w' := ReadsAll(sources, mid, pid);
      ComesBy(sources, w, pid, ReadNode(q), w');
    }
  }

  /** A process that scans and looks at a complete entry last installs the whole version by its own steps, when
  nobody is writing that version. */
  lemma {:induction false} InstallationSucceeds(sources: Sources, w: World, pid: nat, v: Version) returns (w': World)
    requires WellSourced(sources) && Inv(sources, w) && pid < |w.procs| && w.procs[pid].Scanning?
    requires IsComplete(Entry(w.cache, v)) && Grantable(w, pid, Shared(v))
    ensures v in sources && Comes(sources, w, pid, w') && pid < |w'.procs|
    ensures w'.procs[pid] == Installed(v, Packed(sources[v])) && w'.cache == w.cache
  {
    var w1 := Next(sources, w, pid, Visit(v));
    StepKeepsInv(sources, w, pid, Visit(v));
    var w2 := Next(sources, w1, pid, EndScan);
    StepKeepsInv(sources, w1, pid, EndScan);
    var w3 := Next(sources, w2, pid, TakeShared);
    StepKeepsInv(sources, w2, pid, TakeShared);
    var w4 := Next(sources, w3, pid, CheckEntry);
    StepKeepsInv(sources, w3, pid, CheckEntry);
    w' := ReadsAll(sources, w4, pid);
    ComesBy(sources, w3, pid, CheckEntry, w');
    ComesBy(sources, w2, pid, TakeShared, w');
    ComesBy(sources, w1, pid, EndScan, w');
    ComesBy(sources, w, pid, Visit(v), w');
  }
}
