/** The shared binary cache as used by any number of processes that may fail or crash at any step.

Each process scans the cache without a lock, takes a shared lock on the version it found, checks again and
copies node by node; a process that misses downloads and populates: an unlocked check, an exclusive lock, a
second check, the copy node by node with files torn in between, and the marker last. */
module CacheProtocol {
  import opened Wrappers
  import opened Disk
  import opened CopyTree

  type Version = string

  const MARKER: Path := [COMPLETION_MARKER]
  const BIN: Path := ["bin"]

  /** The contents every source of a version has, as a tree of relative paths. */
  type Sources = map<Version, Nodes>

  ghost predicate WellSourced(sources: Sources) {
    forall v :: v in sources ==> Get(sources[v], BIN) == Some(Dir) && MARKER !in sources[v]
  }

  /** A complete entry: the source and the empty marker. */
  function Packed(source: Nodes): Nodes {
    source[MARKER := File([])]
  }

  function Entry(cache: map<Version, Nodes>, v: Version): Nodes {
    if v in cache then cache[v] else map[]
  }

  predicate IsComplete(entry: Nodes) {
    MARKER in entry && Get(entry, BIN) == Some(Dir)
  }

  datatype Lock = Free | Shared(v: Version) | Exclusive(v: Version)

  predicate Compatible(a: Lock, b: Lock) {
    match (a, b)
    case (Exclusive(v), Exclusive(u)) => v != u
    case (Exclusive(v), Shared(u)) => v != u
    case (Shared(v), Exclusive(u)) => v != u
    case _ => true
  }

  datatype Proc =
    // try_use_binary_cache
    | Scanning(found: Option<Version>)
    | WaitingShared(v: Version)
    | Checking(v: Version)
    | Reading(v: Version, todo: set<Path>, got: Nodes)
    | Installed(v: Version, got: Nodes)
    | Missed
    // try_populate_binary_cache
    | Prechecking(v: Version)
    | WaitingExclusive(v: Version)
    | Rechecking(v: Version)
    | Writing(v: Version, todo: set<Path>)
    | Tearing(v: Version, todo: set<Path>, p: Path)
    | Marked(v: Version)
    | Done
    | Crashed

  datatype Step =
    | Visit(v: Version)          // the scan looks at one entry
    | EndScan
    | TakeShared
    | CheckEntry
    | ReadNode(p: Path)
    | EndRead
    | Download(v: Version)
    | Precheck
    | TakeExclusive
    | Recheck
    | WriteNode(p: Path)         // a directory or a link
    | LinkExists(p: Path)        // a link left by an earlier attempt stops the copy
    | BeginFile(p: Path, bytes: seq<Byte>)
    | EndFile
    | WriteMarker
    | Unlock
    | IoError
    | Crash

  datatype World = World(
    procs: seq<Proc>, held: map<nat, Lock>, cache: map<Version, Nodes>, populated: multiset<Version>)

  function Held(w: World, pid: nat): Lock {
    if pid in w.held then w.held[pid] else Free
  }

  /** The lock goes to whoever asks when no other process holds an incompatible one. */
  predicate Grantable(w: World, pid: nat, lock: Lock) {
    forall q :: q in w.held && q != pid ==> Compatible(lock, w.held[q])
  }

  predicate Running(p: Proc) {
    !p.Installed? && !p.Done? && !p.Crashed?
  }

  predicate Enabled(sources: Sources, w: World, pid: nat, step: Step) {
    && pid < |w.procs|
    && var p := w.procs[pid];
       Running(p) &&
       match step
       case Visit(v) => p.Scanning?
       case EndScan => p.Scanning?
       case TakeShared => p.WaitingShared? && Grantable(w, pid, Shared(p.v))
       case CheckEntry => p.Checking?
       case ReadNode(q) => p.Reading? && q in p.todo
       case EndRead => p.Reading? && p.todo == {}
       case Download(v) => p.Missed? && v in sources
       case Precheck => p.Prechecking?
       case TakeExclusive => p.WaitingExclusive? && Grantable(w, pid, Exclusive(p.v))
       case Recheck => p.Rechecking? && p.v in sources
       case WriteNode(q) =>
         && p.Writing? && q in p.todo && p.v in sources && q in sources[p.v] && !sources[p.v][q].File?
         && (sources[p.v][q].Link? ==> q !in Entry(w.cache, p.v))
       case LinkExists(q) =>
         && p.Writing? && q in p.todo && p.v in sources && q in sources[p.v] && sources[p.v][q].Link?
         && q in Entry(w.cache, p.v)
       case BeginFile(q, _) => p.Writing? && q in p.todo && p.v in sources && q in sources[p.v] && sources[p.v][q].File?
       case EndFile => p.Tearing? && p.v in sources && p.p in sources[p.v]
       case WriteMarker => p.Writing? && p.todo == {}
       case Unlock => p.Marked?
       case IoError => !p.Scanning? && !p.Missed? && !p.Prechecking? && !p.Marked?
       case Crash => true
  }

  function Moved(w: World, pid: nat, p: Proc): World
    requires pid < |w.procs|
  {
    w.(procs := w.procs[pid := p])
  }

  /** Closing the lock file, on return or on exit of the process, gives the lock up. */
  function Released(w: World, pid: nat, p: Proc): World
    requires pid < |w.procs|
  {
    w.(procs := w.procs[pid := p], held := w.held - {pid})
  }

  function Stored(w: World, v: Version, q: Path, node: Node): World {
    w.(cache := w.cache[v := Entry(w.cache, v)[q := node]])
  }

  function Next(sources: Sources, w: World, pid: nat, step: Step): World
    requires Enabled(sources, w, pid, step)
  {
    var p := w.procs[pid];
    match step
    case Visit(v) => Moved(w, pid, if IsComplete(Entry(w.cache, v)) then Scanning(Some(v)) else p)
    case EndScan => Moved(w, pid, if p.found.Some? then WaitingShared(p.found.value) else Missed)
    case TakeShared => Moved(w, pid, Checking(p.v)).(held := w.held[pid := Shared(p.v)])
    case CheckEntry =>
      if IsComplete(Entry(w.cache, p.v)) then Moved(w, pid, Reading(p.v, Entry(w.cache, p.v).Keys, map[]))
      else Released(w, pid, Missed)
    case ReadNode(q) =>
      var entry := Entry(w.cache, p.v);
      Moved(w, pid, Reading(p.v, p.todo - {q}, if q in entry then p.got[q := entry[q]] else p.got))
    case EndRead => Released(w, pid, Installed(p.v, p.got))
    case Download(v) => Moved(w, pid, Prechecking(v))
    case Precheck => Moved(w, pid, if IsComplete(Entry(w.cache, p.v)) then Done else WaitingExclusive(p.v))
    case TakeExclusive => Moved(w, pid, Rechecking(p.v)).(held := w.held[pid := Exclusive(p.v)])
    case Recheck =>
      if IsComplete(Entry(w.cache, p.v)) then Released(w, pid, Done)
      else Moved(w, pid, Writing(p.v, sources[p.v].Keys))
    case WriteNode(q) => Stored(Moved(w, pid, Writing(p.v, p.todo - {q})), p.v, q, sources[p.v][q])
    case LinkExists(_) => Released(w, pid, Done)
    case BeginFile(q, bytes) => Stored(Moved(w, pid, Tearing(p.v, p.todo, q)), p.v, q, File(bytes))
    case EndFile => Stored(Moved(w, pid, Writing(p.v, p.todo - {p.p})), p.v, p.p, sources[p.v][p.p])
    case WriteMarker =>
      Stored(Moved(w, pid, Marked(p.v)), p.v, MARKER, File([])).(populated := w.populated + multiset{p.v})
    case Unlock => Released(w, pid, Done)
    case IoError =>
      Released(w, pid, if p.Writing? || p.Tearing? || p.WaitingExclusive? || p.Rechecking? then Done else Missed)
    case Crash => Released(w, pid, Crashed)
  }

  // ---------- invariant ----------

  function LockOf(p: Proc): Lock {
    match p
    case Checking(v) => Shared(v)
    case Reading(v, _, _) => Shared(v)
    case Rechecking(v) => Exclusive(v)
    case Writing(v, _) => Exclusive(v)
    case Tearing(v, _, _) => Exclusive(v)
    case Marked(v) => Exclusive(v)
    case _ => Free
  }

  /** The lock table agrees with the program counters and never holds incompatible locks. */
  ghost predicate LockInv(w: World) {
    && (forall pid :: 0 <= pid < |w.procs| ==> Held(w, pid) == LockOf(w.procs[pid]))
    && (forall pid :: pid in w.held ==> pid < |w.procs|)
    && (forall p, q :: p in w.held && q in w.held && p != q ==> Compatible(w.held[p], w.held[q]))
  }

  /** An unfinished entry: part of the source, files possibly torn. */
  ghost predicate Partial(source: Nodes, entry: Nodes) {
    && MARKER !in entry
    && forall q :: q in entry ==> q in source && (entry[q] == source[q] || (entry[q].File? && source[q].File?))
  }

  /** The nodes of the source that are not still to do are in place. */
  ghost predicate InPlace(source: Nodes, entry: Nodes, todo: set<Path>) {
    todo <= source.Keys && forall q :: q in source && q !in todo ==> Get(entry, q) == Some(source[q])
  }

  /** An entry with a marker is the packed source; one without is partial. */
  ghost predicate EntryInv(sources: Sources, cache: map<Version, Nodes>, v: Version) {
    && v in sources
    && if MARKER in Entry(cache, v) then Entry(cache, v) == Packed(sources[v]) else Partial(sources[v], Entry(cache, v))
  }

  ghost predicate ProcInv(sources: Sources, cache: map<Version, Nodes>, p: Proc) {
    match p
    case Scanning(found) => found.Some? ==> MARKER in Entry(cache, found.value)
    case WaitingShared(v) => MARKER in Entry(cache, v)
    case Checking(v) => MARKER in Entry(cache, v)
    case Reading(v, todo, got) =>
      && MARKER in Entry(cache, v)
      && todo <= Entry(cache, v).Keys
      && got == map q | q in Entry(cache, v) && q !in todo :: Entry(cache, v)[q]
    case Installed(v, got) => v in sources && got == Packed(sources[v])
    case Missed => true
    case Prechecking(v) => v in sources
    case WaitingExclusive(v) => v in sources
    case Rechecking(v) => v in sources
    case Writing(v, todo) =>
      v in sources && MARKER !in Entry(cache, v) && InPlace(sources[v], Entry(cache, v), todo)
    case Tearing(v, todo, t) =>
      && v in sources && MARKER !in Entry(cache, v) && InPlace(sources[v], Entry(cache, v), todo)
      && t in todo && sources[v][t].File?
    case Marked(v) => MARKER in Entry(cache, v)
    case Done => true
    case Crashed => true
  }

  ghost predicate EntriesInv(sources: Sources, cache: map<Version, Nodes>) {
    forall v :: v in cache ==> EntryInv(sources, cache, v)
  }

  ghost predicate ProcsInv(sources: Sources, w: World) {
    forall pid :: 0 <= pid < |w.procs| ==> ProcInv(sources, w.cache, w.procs[pid])
  }

  /** No version was populated twice, and what was populated is complete. */
  ghost predicate PopulatedInv(w: World) {
    forall v :: v in w.populated ==> w.populated[v] == 1 && MARKER in Entry(w.cache, v)
  }

  ghost predicate Inv(sources: Sources, w: World) {
    LockInv(w) && EntriesInv(sources, w.cache) && ProcsInv(sources, w) && PopulatedInv(w)
  }

  lemma {:induction false} MarkerMeansComplete(sources: Sources, w: World, v: Version)
    requires WellSourced(sources) && Inv(sources, w)
    ensures MARKER in Entry(w.cache, v) <==> IsComplete(Entry(w.cache, v))
    ensures IsComplete(Entry(w.cache, v)) ==> v in sources && Entry(w.cache, v) == Packed(sources[v])
  {
    if MARKER in Entry(w.cache, v) {
      assert EntryInv(sources, w.cache, v);
      assert BIN != MARKER by { assert BIN[0] != MARKER[0]; }
    }
  }

  // ---------- every step keeps it ----------

  /** The steps of a process that reads the cache. */
  predicate Reads(step: Step) {
    step.Visit? || step.EndScan? || step.TakeShared? || step.CheckEntry? || step.ReadNode? || step.EndRead?
  }

  predicate Writes(step: Step) {
    step.WriteNode? || step.BeginFile? || step.EndFile? || step.WriteMarker?
  }

  lemma {:induction false} ReaderLock(sources: Sources, w: World, pid: nat, step: Step)
    requires Reads(step) && Enabled(sources, w, pid, step) && Held(w, pid) == LockOf(w.procs[pid])
    ensures Held(Next(sources, w, pid, step), pid) == LockOf(Next(sources, w, pid, step).procs[pid])
  {
  }

  lemma {:induction false} StoreLock(sources: Sources, w: World, pid: nat, step: Step)
    requires Writes(step) && Enabled(sources, w, pid, step) && Held(w, pid) == LockOf(w.procs[pid])
    ensures Held(Next(sources, w, pid, step), pid) == LockOf(Next(sources, w, pid, step).procs[pid])
  {
  }

  lemma {:induction false} OtherLock(sources: Sources, w: World, pid: nat, step: Step)
    requires !Reads(step) && !Writes(step) && Enabled(sources, w, pid, step) && Held(w, pid) == LockOf(w.procs[pid])
    ensures Held(Next(sources, w, pid, step), pid) == LockOf(Next(sources, w, pid, step).procs[pid])
  {
  }

  /** The lock a step leaves its process with. */
  lemma {:induction false} OwnLock(sources: Sources, w: World, pid: nat, step: Step)
    requires Enabled(sources, w, pid, step) && Held(w, pid) == LockOf(w.procs[pid])
    ensures Held(Next(sources, w, pid, step), pid) == LockOf(Next(sources, w, pid, step).procs[pid])
  {
    if Reads(step) {
      ReaderLock(sources, w, pid, step);
    } else if Writes(step) {
      StoreLock(sources, w, pid, step);
    } else {
      OtherLock(sources, w, pid, step);
    }
  }

  lemma {:induction false} OtherLocks(sources: Sources, w: World, pid: nat, step: Step)
    requires Enabled(sources, w, pid, step)
    ensures var w' := Next(sources, w, pid, step);
      && |w'.procs| == |w.procs|
      && (forall q :: 0 <= q < |w.procs| && q != pid ==> w'.procs[q] == w.procs[q])
      && (forall q :: q != pid ==> (q in w'.held <==> q in w.held) && Held(w', q) == Held(w, q))
      && (pid in w'.held && w'.held[pid] != Held(w, pid) ==> Grantable(w, pid, w'.held[pid]))
  {
  }

  lemma {:induction false} LocksKept(sources: Sources, w: World, pid: nat, step: Step)
    requires LockInv(w) && Enabled(sources, w, pid, step)
    ensures LockInv(Next(sources, w, pid, step))
  {
    var w' := Next(sources, w, pid, step);
    assert Held(w, pid) == LockOf(w.procs[pid]);
    OwnLock(sources, w, pid, step);
    OtherLocks(sources, w, pid, step);
    LockTableKept(w, w', pid);
  }

  lemma {:induction false} LockTableKept(w: World, w': World, pid: nat)
    requires LockInv(w) && pid < |w.procs| && |w'.procs| == |w.procs|
    requires Held(w', pid) == LockOf(w'.procs[pid])
    requires forall q :: 0 <= q < |w.procs| && q != pid ==> w'.procs[q] == w.procs[q]
    requires forall q :: q != pid ==> (q in w'.held <==> q in w.held) && Held(w', q) == Held(w, q)
    requires pid in w'.held && w'.held[pid] != Held(w, pid) ==> Grantable(w, pid, w'.held[pid])
    ensures LockInv(w')
  {
    forall q | 0 <= q < |w'.procs| && q != pid
      ensures Held(w', q) == LockOf(w'.procs[q])
    {
      assert Held(w, q) == LockOf(w.procs[q]);
    }
    forall p, q | p in w'.held && q in w'.held && p != q
      ensures Compatible(w'.held[p], w'.held[q])
    {
      assert p != pid ==> w'.held[p] == Held(w', p) == Held(w, p);
      assert q != pid ==> w'.held[q] == Held(w', q) == Held(w, q);
    }
  }

  /** A node stored under the exclusive lock in an unfinished entry is no other process's business. */
  lemma {:induction false} OthersUntouched(sources: Sources, w: World, pid: nat, q: Path, node: Node, other: nat)
    requires Inv(sources, w) && pid < |w.procs| && other < |w.procs| && other != pid
    requires w.procs[pid].Writing? || w.procs[pid].Tearing?
    ensures ProcInv(sources, Stored(w, w.procs[pid].v, q, node).cache, w.procs[other])
  {
    var v := w.procs[pid].v;
    assert LockOf(w.procs[pid]) == Exclusive(v) == Held(w, pid);
    assert ProcInv(sources, w.cache, w.procs[pid]) && ProcInv(sources, w.cache, w.procs[other]);
    assert Held(w, other) == LockOf(w.procs[other]);
    var cache' := Stored(w, v, q, node).cache;
    forall u
      ensures u != v ==> Entry(cache', u) == Entry(w.cache, u)
      ensures MARKER in Entry(w.cache, u) ==> u != v
    {
    }
  }

  lemma {:induction false} ReaderProc(sources: Sources, w: World, pid: nat, step: Step)
    requires WellSourced(sources) && Inv(sources, w) && Enabled(sources, w, pid, step) && Reads(step)
    ensures ProcInv(sources, w.cache, Next(sources, w, pid, step).procs[pid])
  {
    var p := w.procs[pid];
    assert ProcInv(sources, w.cache, p);
    if step.Visit? {
      MarkerMeansComplete(sources, w, step.v);
    } else if p.Checking? || p.Reading? {
      MarkerMeansComplete(sources, w, p.v);
    }
    if step.EndRead? {
      assert p.got == Entry(w.cache, p.v);
    }
  }

  lemma {:induction false} OtherQuietProc(sources: Sources, w: World, pid: nat, step: Step)
    requires WellSourced(sources) && Inv(sources, w) && Enabled(sources, w, pid, step)
    requires !Writes(step) && !Reads(step)
    ensures ProcInv(sources, w.cache, Next(sources, w, pid, step).procs[pid])
  {
    var p := w.procs[pid];
    assert ProcInv(sources, w.cache, p);
    if p.Rechecking? {
      MarkerMeansComplete(sources, w, p.v);
    }
  }

  lemma {:induction false} QuietFrame(sources: Sources, w: World, pid: nat, step: Step)
    requires Enabled(sources, w, pid, step) && !Writes(step)
    ensures Next(sources, w, pid, step).cache == w.cache && Next(sources, w, pid, step).populated == w.populated
  {
  }

  /** Scans, checks, reads and lock traffic leave the cache alone. */
  lemma {:induction false} QuietStep(sources: Sources, w: World, pid: nat, step: Step)
    requires WellSourced(sources) && Inv(sources, w) && Enabled(sources, w, pid, step) && !Writes(step)
    ensures Inv(sources, Next(sources, w, pid, step))
  {
    LocksKept(sources, w, pid, step);
    if Reads(step) {
      ReaderProc(sources, w, pid, step);
    } else {
      OtherQuietProc(sources, w, pid, step);
    }
    OtherLocks(sources, w, pid, step);
    QuietFrame(sources, w, pid, step);
    QuietInv(sources, w, Next(sources, w, pid, step), pid);
  }

  lemma {:induction false} QuietInv(sources: Sources, w: World, w': World, pid: nat)
    requires Inv(sources, w) && LockInv(w') && w'.cache == w.cache && w'.populated == w.populated
    requires |w'.procs| == |w.procs| && pid < |w.procs| && ProcInv(sources, w.cache, w'.procs[pid])
    requires forall q :: 0 <= q < |w.procs| && q != pid ==> w'.procs[q] == w.procs[q]
    ensures Inv(sources, w')
  {
  }

  /** The path and node a writing step stores. */
  function Written(sources: Sources, w: World, pid: nat, step: Step): (Path, Node)
    requires Enabled(sources, w, pid, step) && Writes(step)
  {
    var p := w.procs[pid];
    match step
    case WriteNode(q) => (q, sources[p.v][q])
    case BeginFile(q, bytes) => (q, File(bytes))
    case EndFile => (p.p, sources[p.v][p.p])
    case WriteMarker => (MARKER, File([]))
  }

  lemma {:induction false} StoreKeepsPartial(source: Nodes, entry: Nodes, todo: set<Path>, q: Path, node: Node)
    requires Partial(source, entry) && InPlace(source, entry, todo) && q in todo && MARKER !in source
    requires node == source[q] || (node.File? && source[q].File?)
    ensures Partial(source, entry[q := node]) && InPlace(source, entry[q := node], todo)
    ensures node == source[q] ==> InPlace(source, entry[q := node], todo - {q})
  {
  }

  lemma {:induction false} AllInPlace(source: Nodes, entry: Nodes)
    requires Partial(source, entry) && InPlace(source, entry, {})
    ensures entry == source
  {
    forall q | q in source
      ensures q in entry && entry[q] == source[q]
    {
      assert Get(entry, q) == Some(source[q]);
    }
  }

  /** What one write does to the writer and its entry. */
  lemma {:induction false} WriterStep(sources: Sources, w: World, pid: nat, step: Step)
    requires WellSourced(sources) && Enabled(sources, w, pid, step) && Writes(step)
    requires ProcInv(sources, w.cache, w.procs[pid])
    requires w.procs[pid].v in w.cache ==> EntryInv(sources, w.cache, w.procs[pid].v)
    ensures var w', v := Next(sources, w, pid, step), w.procs[pid].v;
      && EntryInv(sources, w'.cache, v)
      && ProcInv(sources, w'.cache, w'.procs[pid])
      && (MARKER in Entry(w'.cache, v) <==> step.WriteMarker?)
  {
    var p, v := w.procs[pid], w.procs[pid].v;
    var entry, source := Entry(w.cache, v), sources[v];
    assert Partial(source, entry) && InPlace(source, entry, p.todo);
    if step.WriteMarker? {
      AllInPlace(source, entry);
    } else {
      var (q, node) := Written(sources, w, pid, step);
      StoreKeepsPartial(source, entry, p.todo, q, node);
    }
  }

  lemma {:induction false} EntriesKept(sources: Sources, w: World, pid: nat, step: Step)
    requires WellSourced(sources) && EntriesInv(sources, w.cache) && Enabled(sources, w, pid, step) && Writes(step)
    requires ProcInv(sources, w.cache, w.procs[pid])
    ensures EntriesInv(sources, Next(sources, w, pid, step).cache)
  {
    var w', v := Next(sources, w, pid, step), w.procs[pid].v;
    WriterStep(sources, w, pid, step);
    forall u | u in w'.cache && u != v
      ensures EntryInv(sources, w'.cache, u)
    {
      assert EntryInv(sources, w.cache, u);
      assert Entry(w'.cache, u) == Entry(w.cache, u);
    }
  }

  lemma {:induction false} ProcsKept(sources: Sources, w: World, pid: nat, step: Step)
    requires WellSourced(sources) && Inv(sources, w) && Enabled(sources, w, pid, step) && Writes(step)
    ensures ProcsInv(sources, Next(sources, w, pid, step))
  {
    var w', v := Next(sources, w, pid, step), w.procs[pid].v;
    var (q, node) := Written(sources, w, pid, step);
    assert w'.cache == Stored(w, v, q, node).cache;
    assert ProcInv(sources, w.cache, w.procs[pid]);
    WriterStep(sources, w, pid, step);
    forall other | 0 <= other < |w'.procs| && other != pid
      ensures ProcInv(sources, w'.cache, w'.procs[other])
    {
      OthersUntouched(sources, w, pid, q, node, other);
    }
  }

  lemma {:induction false} PopulatedKept(sources: Sources, w: World, pid: nat, step: Step)
    requires PopulatedInv(w) && Enabled(sources, w, pid, step) && Writes(step)
    requires ProcInv(sources, w.cache, w.procs[pid])
    ensures PopulatedInv(Next(sources, w, pid, step))
  {
    var w', v := Next(sources, w, pid, step), w.procs[pid].v;
    assert v !in w.populated;
    forall u | u in w'.populated
      ensures w'.populated[u] == 1 && MARKER in Entry(w'.cache, u)
    {
      if u != v {
        assert u in w.populated && Entry(w'.cache, u) == Entry(w.cache, u);
      }
    }
  }

  lemma {:induction false} StepKeepsInv(sources: Sources, w: World, pid: nat, step: Step)
    requires WellSourced(sources) && Inv(sources, w) && Enabled(sources, w, pid, step)
    ensures Inv(sources, Next(sources, w, pid, step))
  {
    if Writes(step) {
      LocksKept(sources, w, pid, step);
      assert ProcInv(sources, w.cache, w.procs[pid]);
      EntriesKept(sources, w, pid, step);
      ProcsKept(sources, w, pid, step);
      PopulatedKept(sources, w, pid, step);
    } else {
      QuietStep(sources, w, pid, step);
    }
  }

  // ---------- whole runs ----------

  datatype Event = Event(pid: nat, step: Step)

  predicate Possible(sources: Sources, w: World, run: seq<Event>)
    decreases |run|
  {
    run == [] ||
    (Enabled(sources, w, run[0].pid, run[0].step)
     && Possible(sources, Next(sources, w, run[0].pid, run[0].step), run[1..]))
  }

  function After(sources: Sources, w: World, run: seq<Event>): World
    requires Possible(sources, w, run)
    decreases |run|
  {
    if run == [] then w else After(sources, Next(sources, w, run[0].pid, run[0].step), run[1..])
  }

  /** Processes that start by scanning, no locks held, and a cache left by earlier runs: complete entries and
  leftovers of failed populations. */
  ghost predicate Begins(sources: Sources, w: World) {
    && (forall pid :: 0 <= pid < |w.procs| ==> w.procs[pid] == Scanning(None))
    && w.held == map[] && w.populated == multiset{}
    && EntriesInv(sources, w.cache)
  }

  ghost predicate Starts(sources: Sources, w: World) {
    WellSourced(sources) && Begins(sources, w)
  }

  lemma {:induction false} RunKeepsInv(sources: Sources, w: World, run: seq<Event>)
    requires WellSourced(sources) && Inv(sources, w) && Possible(sources, w, run)
    ensures Inv(sources, After(sources, w, run))
    decreases |run|
  {
    if run != [] {
      StepKeepsInv(sources, w, run[0].pid, run[0].step);
      RunKeepsInv(sources, Next(sources, w, run[0].pid, run[0].step), run[1..]);
    }
  }

  /** Whatever fails or crashes, a reader that finishes has the whole packed version, a reader under way has a
  correct part of it, and a version found by the scan is still complete at the check under the lock, so that
  check never misses. */
  lemma {:induction false} ReadersGetEverything(sources: Sources, w0: World, run: seq<Event>, pid: nat)
    requires Starts(sources, w0) && Possible(sources, w0, run)
    requires pid < |After(sources, w0, run).procs|
    ensures var w := After(sources, w0, run);
      match w.procs[pid]
      case Installed(v, got) => v in sources && got == Packed(sources[v])
      case Reading(v, todo, got) =>
        v in sources && got == map q | q in Packed(sources[v]) && q !in todo :: Packed(sources[v])[q]
      case Checking(v) => IsComplete(Entry(w.cache, v))
      case _ => true
  {
    RunKeepsInv(sources, w0, run);
    var w := After(sources, w0, run);
    assert ProcInv(sources, w.cache, w.procs[pid]);
    match w.procs[pid]
    case Reading(v, _, _) => MarkerMeansComplete(sources, w, v);
    case Checking(v) => MarkerMeansComplete(sources, w, v);
    case _ =>
  }

  /** While one process is in the writing part for a version, from the second check to the marker, no other
  process is in the writing or the reading part for it. */
  lemma {:induction false} WritersAreAlone(sources: Sources, w0: World, run: seq<Event>, p: nat, q: nat)
    requires Starts(sources, w0) && Possible(sources, w0, run)
    requires p < |After(sources, w0, run).procs| && q < |After(sources, w0, run).procs| && p != q
    ensures var a, b := LockOf(After(sources, w0, run).procs[p]), LockOf(After(sources, w0, run).procs[q]);
      a.Exclusive? && b != Free ==> a.v != b.v
  {
    RunKeepsInv(sources, w0, run);
    LocksCompatible(After(sources, w0, run), p, q);
  }

  lemma {:induction false} LocksCompatible(w: World, p: nat, q: nat)
    requires LockInv(w) && p < |w.procs| && q < |w.procs| && p != q
    ensures Compatible(LockOf(w.procs[p]), LockOf(w.procs[q]))
  {
    assert Held(w, p) == LockOf(w.procs[p]) && Held(w, q) == LockOf(w.procs[q]);
  }

  /** A complete entry never changes again, and each version is populated at most once in a whole run. */
  lemma {:induction false} CompleteIsForever(sources: Sources, w0: World, run: seq<Event>, more: seq<Event>, v: Version)
    requires Starts(sources, w0) && Possible(sources, w0, run)
    requires Possible(sources, After(sources, w0, run), more)
    ensures var w, w' := After(sources, w0, run), After(sources, After(sources, w0, run), more);
      && w.populated[v] <= 1 && (w.populated[v] == 1 ==> IsComplete(Entry(w.cache, v)))
      && (IsComplete(Entry(w.cache, v)) ==>
            Entry(w.cache, v) == Entry(w'.cache, v) && w'.populated[v] == w.populated[v])
  {
    RunKeepsInv(sources, w0, run);
    var w := After(sources, w0, run);
    MarkerMeansComplete(sources, w, v);
    if IsComplete(Entry(w.cache, v)) {
      StaysComplete(sources, w, more, v);
    }
  }

  lemma {:induction false} StepKeepsComplete(sources: Sources, w: World, pid: nat, step: Step, v: Version)
    requires ProcsInv(sources, w) && Enabled(sources, w, pid, step) && IsComplete(Entry(w.cache, v))
    ensures Entry(Next(sources, w, pid, step).cache, v) == Entry(w.cache, v)
    ensures Next(sources, w, pid, step).populated[v] == w.populated[v]
  {
    assert ProcInv(sources, w.cache, w.procs[pid]);
    if Writes(step) {
      assert w.procs[pid].v != v;
    }
  }

  lemma {:induction false} StaysComplete(sources: Sources, w: World, run: seq<Event>, v: Version)
    requires WellSourced(sources) && Inv(sources, w) && Possible(sources, w, run)
    requires IsComplete(Entry(w.cache, v))
    ensures Entry(After(sources, w, run).cache, v) == Entry(w.cache, v)
    ensures After(sources, w, run).populated[v] == w.populated[v]
    decreases |run|
  {
    if run != [] {
      var e := run[0];
      var w' := Next(sources, w, e.pid, e.step);
      StepKeepsInv(sources, w, e.pid, e.step);
      StepKeepsComplete(sources, w, e.pid, e.step, v);
      StaysComplete(sources, w', run[1..], v);
    }
  }

  /** Steps a process takes of itself: not a failure, and not giving up on the cache. */
  predicate Ordinary(step: Step) {
    !step.IoError? && !step.Crash?
  }

  predicate CanStep(sources: Sources, w: World, pid: nat, step: Step) {
    Ordinary(step) && Enabled(sources, w, pid, step)
  }

  /** A process that is not waiting for a lock can take an ordinary step. */
  lemma {:induction false} UnblockedSteps(sources: Sources, w: World, pid: nat) returns (step: Step)
    requires WellSourced(sources) && Inv(sources, w) && pid < |w.procs| && sources != map[]
    requires Running(w.procs[pid]) && !w.procs[pid].WaitingShared? && !w.procs[pid].WaitingExclusive?
    ensures CanStep(sources, w, pid, step)
  {
    var p := w.procs[pid];
    assert ProcInv(sources, w.cache, p);
    match p
    case Scanning(_) => step := EndScan;
    case Checking(_) => step := CheckEntry;
    case Reading(_, todo, _) =>
      if todo == {} {
        step := EndRead;
      } else {
        var q :| q in todo;
        step := ReadNode(q);
      }
    case Missed =>
      var v :| v in sources;
      step := Download(v);
    case Prechecking(_) => step := Precheck;
    case Rechecking(_) => step := Recheck;
    case Writing(v, todo) =>
      if todo == {} {
        step := WriteMarker;
      } else {
        var q :| q in todo;
        step := match sources[v][q]
          case File(bytes) => BeginFile(q, bytes)
          case Dir => WriteNode(q)
          case Link(_) => if q in Entry(w.cache, v) then LinkExists(q) else WriteNode(q);
      }
    case Tearing(_, _, _) => step := EndFile;
    case Marked(_) => step := Unlock;
  }

  /** No deadlock: while any process is running, some process can take an ordinary step, since a process that
  waits for a lock holds none. */
  lemma {:induction false} SomeoneCanStep(sources: Sources, w0: World, run: seq<Event>, pid: nat)
    requires Starts(sources, w0) && Possible(sources, w0, run) && sources != map[]
    requires pid < |After(sources, w0, run).procs| && Running(After(sources, w0, run).procs[pid])
    ensures exists q, step :: CanStep(sources, After(sources, w0, run), q, step)
    ensures var p := After(sources, w0, run).procs[pid];
      p.WaitingShared? || p.WaitingExclusive? ==> Held(After(sources, w0, run), pid) == Free
  {
    RunKeepsInv(sources, w0, run);
    var w := After(sources, w0, run);
    assert Held(w, pid) == LockOf(w.procs[pid]);
    if q :| q in w.held && w.held[q] != Free {
      assert Held(w, q) == LockOf(w.procs[q]);
      var step := UnblockedSteps(sources, w, q);
    } else if w.procs[pid].WaitingShared? {
      assert CanStep(sources, w, pid, TakeShared);
    } else if w.procs[pid].WaitingExclusive? {
      assert CanStep(sources, w, pid, TakeExclusive);
    } else {
      var step := UnblockedSteps(sources, w, pid);
    }
  }

  // ---------- reachable worlds ----------

  ghost predicate Reaches(sources: Sources, w0: World, w: World) {
    exists run :: Possible(sources, w0, run) && After(sources, w0, run) == w
  }

  lemma {:induction false} OneMore(sources: Sources, w0: World, run: seq<Event>, e: Event)
    requires Possible(sources, w0, run) && Enabled(sources, After(sources, w0, run), e.pid, e.step)
    ensures Possible(sources, w0, run + [e])
    ensures After(sources, w0, run + [e]) == Next(sources, After(sources, w0, run), e.pid, e.step)
    decreases |run|
  {
    if run == [] {
      var w := Next(sources, w0, e.pid, e.step);
      assert ([] + [e])[1..] == [] && Possible(sources, w, []) && After(sources, w, []) == w;
    } else {
      assert (run + [e])[1..] == run[1..] + [e] && (run + [e])[0] == run[0];
      OneMore(sources, Next(sources, w0, run[0].pid, run[0].step), run[1..], e);
    }
  }

  lemma {:induction false} ReachNext(sources: Sources, w0: World, w: World, pid: nat, step: Step, w': World)
    requires Reaches(sources, w0, w)
    requires Enabled(sources, w, pid, step) && Next(sources, w, pid, step) == w'
    ensures Reaches(sources, w0, w')
  {
    var run :| Possible(sources, w0, run) && After(sources, w0, run) == w;
    OneMore(sources, w0, run, Event(pid, step));
  }
}
