/** Removal of the data and installation directories, once in the process and once in the privileged worker.
Paths are their components, as the standard library reads them on Unix: the root only in front, "." only in
front. */
module Cleanup {
  import opened Wrappers

  datatype Component = RootDir | CurDir | ParentDir | Normal(name: string)

  type Path = seq<Component>

  datatype OsPath = OsPath(components: Path, utf8: bool)

  datatype Settings = Settings(data: OsPath, install: OsPath, passwordFile: OsPath)

  datatype Mode = Keep | DataOnly | Full

  function Parent(p: Path): Option<Path> {
    if p == [] || p[|p| - 1] == RootDir then None else Some(p[..|p| - 1])
  }

  predicate HasParentDir(p: Path) {
    ParentDir in p
  }

  predicate IsEmptyOrRoot(p: Path) {
    p == [] || (|p| == 1 && (p[0] == CurDir || p[0] == RootDir))
  }

  // ---------- what may be removed, and what is ----------

  predicate Safe(p: Path) {
    !IsEmptyOrRoot(p) && !HasParentDir(p)
  }

  function IfSafe(p: Path): seq<Path> {
    if Safe(p) then [p] else []
  }

  /** The installation root: the password file's directory, when strictly inside the installation. */
  function RootCall(s: Settings): seq<Path> {
    match Parent(s.passwordFile.components)
    case Some(root) => if s.install.components < root then IfSafe(root) else []
    case None => []
  }

  /** The removals both implementations should ask the system for, in order. */
  function Expected(mode: Mode, s: Settings): seq<Path> {
    match mode
    case Keep => []
    case DataOnly => IfSafe(s.data.components)
    case Full => IfSafe(s.data.components) + IfSafe(s.install.components) + RootCall(s)
  }

  // ---------- the file system ----------

  /** What goes wrong: whether the i-th request ends in an error other than the absence of its path, and whether
  it then leaves k where it is. */
  datatype Faults = Faults(fails: (nat, Path) -> bool, keeps: (nat, Path) -> bool)

  predicate Leaves(f: Faults, i: nat, p: Path, k: Path) {
    !(p <= k) || (f.fails(i, p) && f.keeps(i, k))
  }

  /** What is left of a tree after the given requests, the first of which has number start. */
  function Remaining(f: Faults, start: nat, tree: set<Path>, calls: seq<Path>): set<Path> {
    if calls == [] then tree
    else
      var i := |calls| - 1;
      set k | k in Remaining(f, start, tree, calls[..i]) && Leaves(f, start + i, calls[i], k)
  }

  predicate Survives(f: Faults, start: nat, calls: seq<Path>, k: Path) {
    forall i :: 0 <= i < |calls| ==> Leaves(f, start + i, calls[i], k)
  }

  lemma {:induction false} RemainingIs(f: Faults, start: nat, tree: set<Path>, calls: seq<Path>)
    ensures forall k :: k in Remaining(f, start, tree, calls) <==> k in tree && Survives(f, start, calls, k)
  {
    if calls != [] {
      var i := |calls| - 1;
      RemainingIs(f, start, tree, calls[..i]);
      forall k
        ensures Survives(f, start, calls, k) <==> Survives(f, start, calls[..i], k) && Leaves(f, start + i, calls[i], k)
      {
        assert forall j :: 0 <= j < i ==> calls[..i][j] == calls[j];
      }
    }
  }

  lemma {:induction false} RemainingAppend(f: Faults, start: nat, tree: set<Path>, a: seq<Path>, b: seq<Path>)
    ensures Remaining(f, start, tree, a + b) == Remaining(f, start + |a|, Remaining(f, start, tree, a), b)
  {
    if b == [] {
      assert a + b == a;
    } else {
      assert (a + b)[..|a + b| - 1] == a + b[..|b| - 1];
      RemainingAppend(f, start, tree, a, b[..|b| - 1]);
    }
  }

  /** The requests made so far, and what they have left. */
  datatype State = State(calls: seq<Path>, tree: set<Path>)

  function Do(f: Faults, st: State, calls: seq<Path>): State {
    State(st.calls + calls, Remaining(f, |st.calls|, st.tree, calls))
  }

  lemma {:induction false} DoAppend(f: Faults, st: State, a: seq<Path>, b: seq<Path>)
    ensures Do(f, Do(f, st, a), b) == Do(f, st, a + b)
  {
    RemainingAppend(f, |st.calls|, st.tree, a, b);
    assert st.calls + a + b == st.calls + (a + b);
  }

  class System {
    const faults: Faults
    var state: State

    constructor (faults: Faults, tree: set<Path>)
      ensures this.faults == faults && state == State([], tree)
    {
      this.faults, state := faults, State([], tree);
    }

    /** The given requests were made, and nothing else. */
    twostate predicate Asked(added: seq<Path>)
      reads this
    {
      state == Do(faults, old(state), added)
    }

    method RemoveDirAll(p: Path) returns (ok: bool)
      modifies this
      ensures Asked([p]) && ok == !faults.fails(|old(state.calls)|, p)
    {
      var i := |state.calls|;
      ok := !faults.fails(i, p);
      state := State(state.calls + [p], set k | k in state.tree && Leaves(faults, i, p, k));
      assert [p][..0] == [];
      assert Remaining(faults, i, old(state.tree), []) == old(state.tree);
    }
  }

  method TryRemoveDirAll(system: System, p: Path) returns (ok: bool)
    modifies system
    ensures system.Asked(IfSafe(p))
    ensures ok <==> Safe(p) && !system.faults.fails(|old(system.state.calls)|, p)
  {
    if IsEmptyOrRoot(p) || HasParentDir(p) {
      return false;
    }
    ok := system.RemoveDirAll(p);
  }

  // ---------- what must be gone ----------

  /** What the guard lets through, said outright. */
  predicate Removable(p: Path) {
    ParentDir !in p && p != [] && p != [RootDir] && p != [CurDir]
  }

  /** What a cleanup is for: the data directory, in full mode the installation, and in full mode the directory of the
  password file if it is strictly inside the installation. */
  predicate Due(mode: Mode, s: Settings, k: Path) {
    var (data, install, file) := (s.data.components, s.install.components, s.passwordFile.components);
    || (mode != Keep && Removable(data) && data <= k)
    || (mode == Full && Removable(install) && install <= k)
    || (mode == Full && file != [] && file[|file| - 1] != RootDir && install < file[..|file| - 1]
        && Removable(file[..|file| - 1]) && file[..|file| - 1] <= k)
  }

  lemma {:induction false} DueIsExpected(mode: Mode, s: Settings, k: Path)
    ensures Due(mode, s, k) <==> Covered(Expected(mode, s), k)
  {
    var calls := Expected(mode, s);
    var (data, install) := (s.data.components, s.install.components);
    if Due(mode, s, k) {
      if mode != Keep && Removable(data) && data <= k {
        assert calls[0] == data;
      } else if mode == Full && Removable(install) && install <= k {
        assert calls[|IfSafe(data)|] == install;
      } else {
        var root := s.passwordFile.components[..|s.passwordFile.components| - 1];
        assert RootCall(s) == [root];
        assert calls[|IfSafe(data) + IfSafe(install)|] == root;
      }
    }
    if i :| 0 <= i < |calls| && calls[i] <= k {
      assert calls[i] in calls;
    }
  }

  /** What is not due stays, and if no request fails what is due goes. */
  lemma {:induction false} EffectOfExpected(f: Faults, before: State, mode: Mode, s: Settings)
    ensures var after := Do(f, before, Expected(mode, s));
      && (forall k :: k in after.tree ==> k in before.tree)
      && (forall k :: k in before.tree && !Due(mode, s, k) ==> k in after.tree)
      && (NoFault(f, before, after) ==> forall k :: k in after.tree ==> !Due(mode, s, k))
  {
    EffectOfCalls(f, before, Expected(mode, s));
    forall k
      ensures Due(mode, s, k) <==> Covered(Expected(mode, s), k)
    {
      DueIsExpected(mode, s, k);
    }
  }

  ghost predicate Covered(calls: seq<Path>, k: Path) {
    exists i :: 0 <= i < |calls| && calls[i] <= k
  }

  lemma {:induction false} EffectOfCalls(f: Faults, before: State, calls: seq<Path>)
    ensures var after := Do(f, before, calls);
      && (forall k :: k in after.tree ==> k in before.tree)
      && (forall k :: k in before.tree && !Covered(calls, k) ==> k in after.tree)
      && (NoFault(f, before, after) ==> forall k :: k in after.tree ==> !Covered(calls, k))
  {
    var n, after := |before.calls|, Do(f, before, calls);
    RemainingIs(f, n, before.tree, calls);
    assert forall i :: 0 <= i < |calls| ==> after.calls[n + i] == calls[i];
    forall k | NoFault(f, before, after) && Survives(f, n, calls, k)
      ensures !Covered(calls, k)
    {
      forall i | 0 <= i < |calls|
        ensures !(calls[i] <= k)
      {
        assert Leaves(f, n + i, calls[i], k) && !f.fails(n + i, after.calls[n + i]);
      }
    }
    assert forall k :: !Covered(calls, k) ==> Survives(f, n, calls, k);
  }

  /** None of the requests made between the two states failed. */
  predicate NoFault(f: Faults, before: State, after: State) {
    forall i :: |before.calls| <= i < |after.calls| ==> !f.fails(i, after.calls[i])
  }

  // ---------- in the process ----------

  method RemoveDirAllIfExists(system: System, p: Path)
    modifies system
    ensures system.Asked(IfSafe(p))
  {
    if p == [] || p == [RootDir] {
      return;
    }
    var _ := TryRemoveDirAll(system, p);
  }

  /** Every removal is tried, whatever becomes of the others. */
  method CleanupInProcess(system: System, mode: Mode, s: Settings)
    modifies system
    ensures system.Asked(Expected(mode, s))
    ensures forall k :: k in system.state.tree ==> k in old(system.state.tree)
    ensures forall k :: k in old(system.state.tree) && !Due(mode, s, k) ==> k in system.state.tree
    ensures NoFault(system.faults, old(system.state), system.state) ==>
      forall k :: k in system.state.tree ==> !Due(mode, s, k)
  {
    EffectOfExpected(system.faults, system.state, mode, s);
    if mode == Keep {
      return;
    }
    ghost var f, before := system.faults, system.state;
    var data, install := s.data.components, s.install.components;
    if mode == DataOnly || mode == Full {
      RemoveDirAllIfExists(system, data);
    }
    if mode != Full {
      return;
    }
    RemoveDirAllIfExists(system, install);
    DoAppend(f, before, IfSafe(data), IfSafe(install));
    assert IfSafe(data) + IfSafe(install) + [] == IfSafe(data) + IfSafe(install);
    var parent := Parent(s.passwordFile.components);
    if parent.None? {
      return;
    }
    if parent.value != install && !HasParentDir(parent.value) && install <= parent.value {
      RemoveDirAllIfExists(system, parent.value);
      DoAppend(f, before, IfSafe(data) + IfSafe(install), IfSafe(parent.value));
    }
  }

  // ---------- in the worker ----------

  datatype Operation = CleanupData | CleanupFull

  function CleanupOperation(mode: Mode): Option<Operation> {
    match mode
    case DataOnly => Some(CleanupData)
    case Full => Some(CleanupFull)
    case Keep => None
  }

  /** The directories the worker insists on reading as UTF-8 before it removes anything. */
  predicate WorkerReads(op: Operation, s: Settings) {
    s.data.utf8 && (op == CleanupFull ==> s.install.utf8 && s.passwordFile.utf8)
  }

  function ExtractInstallRoot(s: Settings): Option<Path> {
    match Parent(s.passwordFile.components)
    case None => None
    case Some(root) =>
      if root == [] || root == [RootDir] then None
      else if root == s.install.components then None
      else if HasParentDir(root) then None
      else if !(s.install.components <= root) then None
      else Some(root)
  }

  function IfGiven(p: Option<Path>): seq<Path> {
    match p case Some(q) => IfSafe(q) case None => []
  }

  /** The worker's installation root is the one the process removes. */
  lemma {:induction false} SameRoot(s: Settings)
    ensures var (install, root) := (Some(s.install.components), ExtractInstallRoot(s));
      IfGiven(if install == root then None else root) == RootCall(s)
  {
  }

  method RunWorker(system: System, op: Operation, s: Settings) returns (ok: bool)
    modifies system
    ensures system.Asked(if WorkerReads(op, s) then Expected(if op == CleanupFull then Full else DataOnly, s) else [])
    ensures ok ==> WorkerReads(op, s) && Safe(s.data.components)
    ensures ok ==> !system.faults.fails(|old(system.state.calls)|, s.data.components)
  {
    if !s.data.utf8 {
      return false;
    }
    match op
    case CleanupData =>
      assert IfSafe(s.data.components) + [] + [] == IfSafe(s.data.components);
      ok := ExecuteCleanup(system, s.data.components, None, None);
    case CleanupFull =>
      if !s.install.utf8 || !s.passwordFile.utf8 {
        return false;
      }
      SameRoot(s);
      ok := ExecuteCleanup(system, s.data.components, Some(s.install.components), ExtractInstallRoot(s));
  }

  /** Tries one removal and counts it when it fails. */
  method CollectRemoval(system: System, p: Option<Path>, failures: nat) returns (total: nat)
    modifies system
    ensures system.Asked(IfGiven(p)) && total >= failures
    ensures total == failures && p.Some? ==> Safe(p.value) && !system.faults.fails(|old(system.state.calls)|, p.value)
  {
    total := failures;
    if p.Some? {
      var removed := TryRemoveDirAll(system, p.value);
      total := if removed then failures else failures + 1;
    }
  }

  method ExecuteCleanup(system: System, data: Path, install: Option<Path>, root: Option<Path>) returns (ok: bool)
    modifies system
    ensures system.Asked(IfSafe(data) + IfGiven(install) + IfGiven(if install == root then None else root))
    ensures ok ==> Safe(data) && !system.faults.fails(|old(system.state.calls)|, data)
  {
    ghost var f, before := system.faults, system.state;
    var rest := if install == root then None else root;
    var failures := CollectRemoval(system, Some(data), 0);
    failures := CollectRemoval(system, install, failures);
    DoAppend(f, before, IfSafe(data), IfGiven(install));
    failures := CollectRemoval(system, rest, failures);
    DoAppend(f, before, IfSafe(data) + IfGiven(install), IfGiven(rest));
    ok := failures == 0;
  }

  /** A worker that starts and can read the settings. */
  predicate Effective(launched: bool, mode: Mode, s: Settings) {
    mode != Keep && launched && WorkerReads(CleanupOperation(mode).value, s)
  }

  function WorkerCalls(launched: bool, mode: Mode, s: Settings): seq<Path> {
    if Effective(launched, mode, s) then Expected(mode, s) else []
  }

  /** Starting the worker may fail; that and what the worker reports are only logged. */
  method CleanupByWorker(system: System, launched: bool, mode: Mode, s: Settings)
    modifies system
    ensures system.Asked(WorkerCalls(launched, mode, s))
    ensures forall k :: k in system.state.tree ==> k in old(system.state.tree)
    ensures forall k :: k in old(system.state.tree) && !Due(mode, s, k) ==> k in system.state.tree
    ensures NoFault(system.faults, old(system.state), system.state) ==>
      launched && s.data.utf8 && (mode == Full ==> s.install.utf8 && s.passwordFile.utf8) ==>
      forall k :: k in system.state.tree ==> !Due(mode, s, k)
    ensures !launched || !s.data.utf8 || (mode == Full && !(s.install.utf8 && s.passwordFile.utf8)) ==>
      system.state == old(system.state)
  {
    EffectOfExpected(system.faults, system.state, mode, s);
    var operation := CleanupOperation(mode);
    if operation.None? || !launched {
      return;
    }
    var _ := RunWorker(system, operation.value, s);
  }

  // ---------- what follows ----------

  /** The two implementations, run on equal systems, make the same requests in the same order if and only if
  the worker is effective or there is nothing to remove; and then they leave the same tree. */
  method CompareCleanups(a: System, b: System, launched: bool, mode: Mode, s: Settings)
    requires a != b && a.faults == b.faults && a.state == b.state
    modifies a, b
    ensures a.state.calls == b.state.calls <==>
      || (launched && s.data.utf8 && (mode == Full ==> s.install.utf8 && s.passwordFile.utf8))
      || Expected(mode, s) == []
    ensures a.state.calls == b.state.calls ==> a.state.tree == b.state.tree
  {
    CleanupInProcess(a, mode, s);
    CleanupByWorker(b, launched, mode, s);
    assert a.state.calls[|old(a.state.calls)|..] == Expected(mode, s);
    assert b.state.calls[|old(b.state.calls)|..] == WorkerCalls(launched, mode, s);
  }

  lemma {:induction false} NothingExpected(mode: Mode, s: Settings)
    ensures Expected(mode, s) == [] <==> forall k :: !Due(mode, s, k)
  {
    if Expected(mode, s) != [] {
      DueIsExpected(mode, s, Expected(mode, s)[0]);
    }
    forall k
      ensures Expected(mode, s) == [] ==> !Due(mode, s, k)
    {
      DueIsExpected(mode, s, k);
    }
  }

  /** Everything removed lies in the data or the installation directory, names no parent directory and is
  neither empty nor the root. */
  lemma {:induction false} RemovalsAreContained(mode: Mode, s: Settings, p: Path)
    requires p in Expected(mode, s)
    ensures mode != Keep
    ensures s.data.components <= p || (mode == Full && s.install.components <= p)
    ensures p != [] && p != [RootDir] && p != [CurDir] && ParentDir !in p
  {
  }

  predicate Under(a: Path, b: Path, calls: seq<Path>) {
    forall i :: 0 <= i < |calls| ==> a <= calls[i] || b <= calls[i]
  }

  lemma {:induction false} ExpectedIsUnder(mode: Mode, s: Settings)
    ensures Under(s.data.components, s.install.components, Expected(mode, s))
  {
    var calls := Expected(mode, s);
    forall i | 0 <= i < |calls|
      ensures s.data.components <= calls[i] || s.install.components <= calls[i]
    {
      RemovalsAreContained(mode, s, calls[i]);
    }
  }

  lemma {:induction false} OutsideStays(f: Faults, start: nat, tree: set<Path>, calls: seq<Path>, a: Path, b: Path)
    requires Under(a, b, calls)
    ensures forall k :: k in tree && !(a <= k) && !(b <= k) ==> k in Remaining(f, start, tree, calls)
  {
    RemainingIs(f, start, tree, calls);
    forall k | !(a <= k) && !(b <= k)
      ensures Survives(f, start, calls, k)
    {
      forall i | 0 <= i < |calls|
        ensures !(calls[i] <= k)
      {
        if calls[i] <= k {
          PrefixTrans(if a <= calls[i] then a else b, calls[i], k);
        }
      }
    }
  }

  /** A request above k that failed and left it. */
  ghost predicate FailedOn(f: Faults, start: nat, calls: seq<Path>, i: int, k: Path) {
    0 <= i < |calls| && calls[i] <= k && f.fails(start + i, calls[i]) && f.keeps(start + i, k)
  }

  predicate NoFailure(f: Faults, start: nat, calls: seq<Path>) {
    forall i :: 0 <= i < |calls| ==> !f.fails(start + i, calls[i])
  }

  /** A path that outlives the first pass and not the second. */
  ghost predicate Outlived(f: Faults, start: nat, tree: set<Path>, first: seq<Path>, second: seq<Path>) {
    exists k :: k in tree && Survives(f, start, first, k) && !Survives(f, start + |first|, second, k)
  }

  lemma {:induction false} SecondPass(f: Faults, start: nat, tree: set<Path>, first: seq<Path>, second: seq<Path>)
    ensures var mid := Remaining(f, start, tree, first);
      var end := Remaining(f, start + |first|, mid, second);
      end <= mid <= tree && (end != mid <==> Outlived(f, start, tree, first, second))
  {
    var mid := Remaining(f, start, tree, first);
    var end := Remaining(f, start + |first|, mid, second);
    RemainingIs(f, start, tree, first);
    RemainingIs(f, start + |first|, mid, second);
    if Outlived(f, start, tree, first, second) {
      var k :| k in tree && Survives(f, start, first, k) && !Survives(f, start + |first|, second, k);
      assert k in mid && k !in end;
    }
    if end != mid {
      var k :| k in mid && k !in end;
    }
  }

  /** A request that takes k away. */
  ghost predicate Clears(f: Faults, start: nat, calls: seq<Path>, j: int, k: Path) {
    0 <= j < |calls| && calls[j] <= k && !(f.fails(start + j, calls[j]) && f.keeps(start + j, k))
  }

  /** Some path is cleared by a request that failed on it in the pass before, as did all others above it. */
  ghost predicate ClearedOnRetry(f: Faults, start: nat, tree: set<Path>, calls: seq<Path>) {
    exists j, k ::
      && k in tree && FailedOn(f, start, calls, j, k) && Clears(f, start + |calls|, calls, j, k)
      && forall i :: 0 <= i < |calls| && calls[i] <= k ==> FailedOn(f, start, calls, i, k)
  }

  ghost predicate ClearsSomething(f: Faults, start: nat, tree: set<Path>, calls: seq<Path>) {
    exists j, k :: k in tree && Clears(f, start, calls, j, k)
  }

  lemma {:induction false} RetryClears(f: Faults, start: nat, tree: set<Path>, calls: seq<Path>)
    ensures Outlived(f, start, tree, calls, calls) <==> ClearedOnRetry(f, start, tree, calls)
    ensures NoFailure(f, start, calls) ==> !ClearedOnRetry(f, start, tree, calls)
  {
    if Outlived(f, start, tree, calls, calls) {
      var k :| k in tree && Survives(f, start, calls, k) && !Survives(f, start + |calls|, calls, k);
      var j :| 0 <= j < |calls| && !Leaves(f, start + |calls| + j, calls[j], k);
      forall i | 0 <= i < |calls| && calls[i] <= k
        ensures FailedOn(f, start, calls, i, k)
      {
        assert Leaves(f, start + i, calls[i], k);
      }
      assert Clears(f, start + |calls|, calls, j, k);
    }
    if ClearedOnRetry(f, start, tree, calls) {
      var j, k :|
        && k in tree && FailedOn(f, start, calls, j, k) && Clears(f, start + |calls|, calls, j, k)
        && forall i :: 0 <= i < |calls| && calls[i] <= k ==> FailedOn(f, start, calls, i, k);
      assert !Leaves(f, start + |calls| + j, calls[j], k);
      assert Survives(f, start, calls, k);
    }
  }

  lemma {:induction false} LonePassClears(f: Faults, start: nat, tree: set<Path>, calls: seq<Path>)
    ensures Outlived(f, start, tree, [], calls) <==> ClearsSomething(f, start, tree, calls)
  {
    if Outlived(f, start, tree, [], calls) {
      var k :| k in tree && !Survives(f, start, calls, k);
      var j :| 0 <= j < |calls| && !Leaves(f, start + j, calls[j], k);
      assert Clears(f, start, calls, j, k);
    }
    if ClearsSomething(f, start, tree, calls) {
      var j, k :| k in tree && Clears(f, start, calls, j, k);
      assert !Leaves(f, start + j, calls[j], k);
      assert Survives(f, start, [], k);
    }
  }

  /** Stopping a worker-managed cluster: after a stop that succeeded the worker removes, and then the process
  does, over again.  After an effective worker the second pass removes something exactly when it clears a path that
  a failed request of the first had left; without one it removes exactly what it would alone.  Nothing outside the
  two directories goes. */
  method StopWorkerManaged(system: System, stopped: bool, launched: bool, mode: Mode, s: Settings)
    returns (ghost mid: set<Path>)
    modifies system
    ensures var (f, tree) := (system.faults, old(system.state.tree));
      var all, worker := Expected(mode, s), WorkerCalls(launched, mode, s);
      && system.state.calls == old(system.state.calls) + (if stopped then worker + all else [])
      && system.state.tree <= mid <= tree
      && (Effective(launched, mode, s) ==>
            && (system.state.tree != mid <==> stopped && ClearedOnRetry(f, |old(system.state.calls)|, tree, all))
            && (NoFailure(f, |old(system.state.calls)|, all) ==> system.state.tree == mid))
      && (!Effective(launched, mode, s) ==>
            && mid == tree
            && (system.state.tree != mid <==> stopped && ClearsSomething(f, |old(system.state.calls)|, tree, all)))
    ensures forall k :: k in old(system.state.tree) && !(s.data.components <= k) && !(s.install.components <= k) ==>
      k in system.state.tree
    ensures stopped && NoFault(system.faults, old(system.state), system.state) ==>
      forall k :: k in system.state.tree ==> !Due(mode, s, k)
  {
    mid := system.state.tree;
    if !stopped {
      return;
    }
    ghost var f, before := system.faults, system.state;
    ghost var all, worker := Expected(mode, s), WorkerCalls(launched, mode, s);
    CleanupByWorker(system, launched, mode, s);
    mid := system.state.tree;
    CleanupInProcess(system, mode, s);
    DoAppend(f, before, worker, all);
    ExpectedIsUnder(mode, s);
    TwoPasses(f, before, worker, all, s.data.components, s.install.components);
  }

  lemma {:induction false} TwoPasses(f: Faults, before: State, worker: seq<Path>, all: seq<Path>, a: Path, b: Path)
    requires Under(a, b, worker) && Under(a, b, all)
    ensures var (n, tree, mid) := (|before.calls|, before.tree, Do(f, before, worker).tree);
      var end := Do(f, Do(f, before, worker), all).tree;
      && end <= mid <= tree
      && (worker == all ==>
            (end != mid <==> ClearedOnRetry(f, n, tree, all)) && (NoFailure(f, n, all) ==> end == mid))
      && (worker == [] ==> mid == tree && (end != mid <==> ClearsSomething(f, n, tree, all)))
      && forall k :: k in tree && !(a <= k) && !(b <= k) ==> k in end
  {
    var n, tree, mid := |before.calls|, before.tree, Do(f, before, worker).tree;
    SecondPass(f, n, tree, worker, all);
    RetryClears(f, n, tree, all);
    LonePassClears(f, n, tree, all);
    OutsideStays(f, n, tree, worker, a, b);
    OutsideStays(f, n + |worker|, mid, all, a, b);
  }
}
