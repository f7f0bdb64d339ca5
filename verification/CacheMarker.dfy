/** What a source that already holds a marker does to the protocol.  An installation copied from the cache is one.
The copy then writes the marker whenever the listing says so, before other nodes, and a crash leaves an entry that
every later process takes for complete. */
module CacheMarker {
  import opened Wrappers
  import opened Disk
  import opened CopyTree
  import opened CacheProtocol

  // ---------- the run that goes wrong ----------

  /** Sources with a bin directory and something else in them, and no marker but a regular file. */
  ghost predicate Filled(sources: Sources) {
    forall v :: v in sources ==>
      && Get(sources[v], BIN) == Some(Dir)
      && (MARKER in sources[v] ==> sources[v][MARKER].File?)
      && exists x :: Other(sources[v], x)
  }

  predicate Other(source: Nodes, x: Path) {
    x in source && x != [] && x != BIN && x != MARKER
  }

  function TwoProcs(a: Proc, held: map<nat, Lock>, cache: map<Version, Nodes>): World {
    World([a, Scanning(None)], held, cache, multiset{})
  }

  const HALF: Nodes := map[BIN := Dir, MARKER := File([])]

  lemma {:induction false} TwoPaths()
    ensures BIN != MARKER && HALF.Keys == {BIN, MARKER} && IsComplete(HALF)
  {
    assert BIN[0] != MARKER[0];
  }

  /** A populating process that has written bin and the source's own marker, and nothing else. */
  function HalfWritten(source: Nodes, v: Version): World {
    TwoProcs(Tearing(v, source.Keys - {BIN}, MARKER), map[0 := Exclusive(v)], map[v := HALF])
  }

  lemma {:induction false} ReachWaiting(sources: Sources, v: Version)
    requires v in sources
    ensures var w0 := TwoProcs(Scanning(None), map[], map[]);
      Reaches(sources, w0, TwoProcs(WaitingExclusive(v), map[], map[]))
  {
    var w0 := TwoProcs(Scanning(None), map[], map[]);
    assert Possible(sources, w0, []) && After(sources, w0, []) == w0;
    var w1, w2 := TwoProcs(Missed, map[], map[]), TwoProcs(Prechecking(v), map[], map[]);
    ReachNext(sources, w0, w0, 0, EndScan, w1);
    ReachNext(sources, w0, w1, 0, Download(v), w2);
    ReachNext(sources, w0, w2, 0, Precheck, TwoProcs(WaitingExclusive(v), map[], map[]));
  }

  lemma {:induction false} ReachWriting(sources: Sources, v: Version)
    requires v in sources
    ensures var w0 := TwoProcs(Scanning(None), map[], map[]);
      Reaches(sources, w0, TwoProcs(Writing(v, sources[v].Keys), map[0 := Exclusive(v)], map[]))
  {
    ReachWaiting(sources, v);
    var w0, w1 := TwoProcs(Scanning(None), map[], map[]), TwoProcs(WaitingExclusive(v), map[], map[]);
    var w2 := TwoProcs(Rechecking(v), map[0 := Exclusive(v)], map[]);
    ReachNext(sources, w0, w1, 0, TakeExclusive, w2);
    ReachNext(sources, w0, w2, 0, Recheck, TwoProcs(Writing(v, sources[v].Keys), map[0 := Exclusive(v)], map[]));
  }

  lemma {:induction false} ReachHalf(sources: Sources, v: Version)
    requires Filled(sources) && v in sources && MARKER in sources[v]
    ensures Reaches(sources, TwoProcs(Scanning(None), map[], map[]), HalfWritten(sources[v], v))
  {
    TwoPaths();
    ReachWriting(sources, v);
    var w0, todo, held := TwoProcs(Scanning(None), map[], map[]), sources[v].Keys, map[0 := Exclusive(v)];
    var w1 := TwoProcs(Writing(v, todo), held, map[]);
    var w2 := TwoProcs(Writing(v, todo - {BIN}), held, map[v := map[BIN := Dir]]);
    ReachNext(sources, w0, w1, 0, WriteNode(BIN), w2);
    assert map[BIN := Dir][MARKER := File([])] == HALF;
    ReachNext(sources, w0, w2, 0, BeginFile(MARKER, []), HalfWritten(sources[v], v));
  }

  /** The writer crashes: nobody holds a lock, and the half-written entry is complete to every check. */
  lemma {:induction false} CrashLeavesFalseEntry(sources: Sources, v: Version, x: Path)
    requires Filled(sources) && v in sources && MARKER in sources[v] && Other(sources[v], x)
    ensures var w := TwoProcs(Crashed, map[], map[v := HALF]);
      && Reaches(sources, TwoProcs(Scanning(None), map[], map[]), w)
      && IsComplete(Entry(w.cache, v)) && x !in Entry(w.cache, v)
  {
    TwoPaths();
    ReachHalf(sources, v);
    var w0 := TwoProcs(Scanning(None), map[], map[]);
    ReachNext(sources, w0, HalfWritten(sources[v], v), 0, Crash, TwoProcs(Crashed, map[], map[v := HALF]));
  }

  function Reader(v: Version, p: Proc, held: map<nat, Lock>): World {
    World([Crashed, p], held, map[v := HALF], multiset{})
  }

  /** And the next process installs it. */
  lemma {:induction false} FalseEntryIsInstalled(sources: Sources, v: Version, x: Path)
    requires Filled(sources) && v in sources && MARKER in sources[v] && Other(sources[v], x)
    ensures Reaches(sources, TwoProcs(Scanning(None), map[], map[]), Reader(v, Installed(v, HALF), map[]))
    ensures x !in HALF && HALF != Packed(sources[v])
  {
    TwoPaths();
    var w0 := TwoProcs(Scanning(None), map[], map[]);
    CrashLeavesFalseEntry(sources, v, x);
    HalfIsFound(sources, w0, v);
    HalfIsRead(sources, w0, v);
    assert x in Packed(sources[v]);
  }

  lemma {:induction false} HalfIsFound(sources: Sources, w0: World, v: Version)
    requires Reaches(sources, w0, Reader(v, Scanning(None), map[]))
    ensures Reaches(sources, w0, Reader(v, Checking(v), map[1 := Shared(v)]))
  {
    TwoPaths();
    var w1, w2 := Reader(v, Scanning(None), map[]), Reader(v, Scanning(Some(v)), map[]);
    ReachNext(sources, w0, w1, 1, Visit(v), w2);
    var w3 := Reader(v, WaitingShared(v), map[]);
    ReachNext(sources, w0, w2, 1, EndScan, w3);
    ReachNext(sources, w0, w3, 1, TakeShared, Reader(v, Checking(v), map[1 := Shared(v)]));
  }

  lemma {:induction false} ReadSets()
    ensures {BIN, MARKER} - {BIN} == {MARKER} && {MARKER} - {MARKER} == {}
    ensures HALF[BIN] == Dir && map[][BIN := HALF[BIN]] == map[BIN := Dir]
    ensures map[BIN := Dir][MARKER := HALF[MARKER]] == HALF
  {
    TwoPaths();
  }

  lemma {:induction false} BinIsRead(sources: Sources, w0: World, v: Version)
    requires Reaches(sources, w0, Reader(v, Checking(v), map[1 := Shared(v)]))
    ensures Reaches(sources, w0, Reader(v, Reading(v, {MARKER}, map[BIN := Dir]), map[1 := Shared(v)]))
  {
    TwoPaths();
    ReadSets();
    var lock := map[1 := Shared(v)];
    var w1, w2 := Reader(v, Checking(v), lock), Reader(v, Reading(v, {BIN, MARKER}, map[]), lock);
    ReachNext(sources, w0, w1, 1, CheckEntry, w2);
    ReachNext(sources, w0, w2, 1, ReadNode(BIN), Reader(v, Reading(v, {MARKER}, map[BIN := Dir]), lock));
  }

  lemma {:induction false} HalfIsRead(sources: Sources, w0: World, v: Version)
    requires Reaches(sources, w0, Reader(v, Checking(v), map[1 := Shared(v)]))
    ensures Reaches(sources, w0, Reader(v, Installed(v, HALF), map[]))
  {
    TwoPaths();
    ReadSets();
    BinIsRead(sources, w0, v);
    var lock := map[1 := Shared(v)];
    var w3, w4 := Reader(v, Reading(v, {MARKER}, map[BIN := Dir]), lock), Reader(v, Reading(v, {}, HALF), lock);
    ReachNext(sources, w0, w3, 1, ReadNode(MARKER), w4);
    ReachNext(sources, w0, w4, 1, EndRead, Reader(v, Installed(v, HALF), map[]));
  }

  // ---------- exactly when the protocol is safe ----------

  /** Every finished reader has the whole version. */
  ghost predicate ReadersAreSafe(sources: Sources) {
    forall w0, w, pid :: Begins(sources, w0) && Reaches(sources, w0, w) && 0 <= pid < |w.procs| ==>
      match w.procs[pid]
      case Installed(v, got) => v in sources && got == Packed(sources[v])
      case _ => true
  }

  /** An entry that passes the check never changes again. */
  ghost predicate EntriesAreStable(sources: Sources) {
    forall w0, w, pid, step, v ::
      Begins(sources, w0) && Reaches(sources, w0, w) && Enabled(sources, w, pid, step) && IsComplete(Entry(w.cache, v))
      ==> Entry(Next(sources, w, pid, step).cache, v) == Entry(w.cache, v)
  }

  ghost predicate NoMarkers(sources: Sources) {
    forall v :: v in sources ==> MARKER !in sources[v]
  }

  lemma {:induction false} SafeWithoutMarkers(sources: Sources)
    requires Filled(sources) && NoMarkers(sources)
    ensures ReadersAreSafe(sources) && EntriesAreStable(sources)
  {
    assert WellSourced(sources);
    forall w0, w | Begins(sources, w0) && Reaches(sources, w0, w)
      ensures Inv(sources, w)
    {
      var run :| Possible(sources, w0, run) && After(sources, w0, run) == w;
      RunKeepsInv(sources, w0, run);
    }
    forall w0, w, pid | Begins(sources, w0) && Reaches(sources, w0, w) && 0 <= pid < |w.procs|
      ensures match w.procs[pid]
        case Installed(v, got) => v in sources && got == Packed(sources[v])
        case _ => true
    {
      assert ProcInv(sources, w.cache, w.procs[pid]);
    }
    forall w0, w, pid, step, v | Begins(sources, w0) && Reaches(sources, w0, w) && Enabled(sources, w, pid, step)
        && IsComplete(Entry(w.cache, v))
      ensures Entry(Next(sources, w, pid, step).cache, v) == Entry(w.cache, v)
    {
      StepKeepsComplete(sources, w, pid, step, v);
    }
  }

  /** The half-written entry with the marker's own contents. */
  function MarkerCopied(source: Nodes, v: Version): World
    requires MARKER in source
  {
    TwoProcs(Writing(v, source.Keys - {BIN} - {MARKER}), map[0 := Exclusive(v)],
      map[v := HALF[MARKER := source[MARKER]]])
  }

  lemma {:induction false} ReachMarkerCopied(sources: Sources, v: Version)
    requires Filled(sources) && v in sources && MARKER in sources[v]
    ensures Reaches(sources, TwoProcs(Scanning(None), map[], map[]), MarkerCopied(sources[v], v))
  {
    ReachHalf(sources, v);
    var w0 := TwoProcs(Scanning(None), map[], map[]);
    ReachNext(sources, w0, HalfWritten(sources[v], v), 0, EndFile, MarkerCopied(sources[v], v));
  }

  /** The next node the half-written entry gets changes an entry that passes the check. */
  lemma {:induction false} FalseEntryChanges(sources: Sources, v: Version, x: Path)
    requires Filled(sources) && v in sources && MARKER in sources[v] && Other(sources[v], x)
    ensures var w := MarkerCopied(sources[v], v);
      var step := if sources[v][x].File? then BeginFile(x, []) else WriteNode(x);
      && IsComplete(Entry(w.cache, v)) && x !in Entry(w.cache, v)
      && Enabled(sources, w, 0, step) && x in Entry(Next(sources, w, 0, step).cache, v)
  {
    TwoPaths();
  }

  lemma {:induction false} UnsafeWithMarker(sources: Sources, v: Version, x: Path)
    requires Filled(sources) && v in sources && MARKER in sources[v] && Other(sources[v], x)
    ensures !ReadersAreSafe(sources)
  {
    FalseEntryIsInstalled(sources, v, x);
    var w0, w := TwoProcs(Scanning(None), map[], map[]), Reader(v, Installed(v, HALF), map[]);
    assert Begins(sources, w0) && w.procs[1] == Installed(v, HALF);
  }

  lemma {:induction false} UnstableWithMarker(sources: Sources, v: Version, x: Path)
    requires Filled(sources) && v in sources && MARKER in sources[v] && Other(sources[v], x)
    ensures !EntriesAreStable(sources)
  {
    ReachMarkerCopied(sources, v);
    FalseEntryChanges(sources, v, x);
    assert Begins(sources, TwoProcs(Scanning(None), map[], map[]));
  }

  /** For sources with a bin directory and something besides: readers are safe, and checked entries stable, if
  and only if no source holds a marker. */
  lemma {:induction false} SafeIffNoMarkers(sources: Sources)
    requires Filled(sources)
    ensures ReadersAreSafe(sources) <==> NoMarkers(sources)
    ensures EntriesAreStable(sources) <==> NoMarkers(sources)
  {
    if NoMarkers(sources) {
      SafeWithoutMarkers(sources);
    } else {
      var v :| v in sources && MARKER in sources[v];
      var x :| Other(sources[v], x);
      UnsafeWithMarker(sources, v, x);
      UnstableWithMarker(sources, v, x);
    }
  }
}
