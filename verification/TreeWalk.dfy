/** Changing the owner of everything under a directory with an explicit stack of directories still to open. */
module TreeWalk {
  import opened Wrappers
  import opened Disk

  /** The proper descendants of root: what the walk must reach. */
  function Descendants(nodes: Nodes, root: Path): set<Path> {
    set k | k in nodes && root < k
  }

  ghost predicate Distinct(s: seq<Path>) {
    forall i, j :: 0 <= i < j < |s| ==> s[i] != s[j]
  }

  /** Every entry comes after the directory it stands in. */
  ghost predicate ParentsFirst(root: Path, s: seq<Path>) {
    forall i :: 0 <= i < |s| ==> s[i] != [] && (Parent(s[i]) == root || Parent(s[i]) in s[..i])
  }

  ghost predicate Pending(stack: seq<Path>, k: Path) {
    exists i :: 0 <= i < |stack| && stack[i] < k
  }

  /** Nothing on the stack is under anything else on it. */
  ghost predicate Antichain(stack: seq<Path>) {
    forall i, j :: 0 <= i < |stack| && 0 <= j < |stack| && i != j ==> !(stack[i] <= stack[j])
  }

  /** Each entry visited once, under root, after its directory. */
  ghost predicate LogInv(nodes: Nodes, root: Path, owned: seq<Path>) {
    && Distinct(owned) && ParentsFirst(root, owned)
    && forall k :: k in owned ==> k in Descendants(nodes, root)
  }

  ghost predicate IsOpened(nodes: Nodes, root: Path, owned: seq<Path>, dir: Path) {
    root <= dir && Get(nodes, dir) == Some(Dir) && (dir == root || dir in owned)
  }

  /** Between two directories: every descendant is either visited or under something on the stack. */
  ghost predicate WalkInv(nodes: Nodes, root: Path, stack: seq<Path>, owned: seq<Path>) {
    && LogInv(nodes, root, owned)
    && Antichain(stack)
    && (forall i :: 0 <= i < |stack| ==> IsOpened(nodes, root, owned, stack[i]))
    && (forall k :: k in Descendants(nodes, root) ==> (k in owned <==> !Pending(stack, k)))
  }

  /** In the middle of one: dir has left the stack, and its children in todo are still to be visited. */
  ghost predicate StackInv(stack: seq<Path>, dir: Path, todo: set<Name>) {
    && Antichain(stack)
    && (forall i :: 0 <= i < |stack| ==> !(stack[i] <= dir))
    && (forall i :: 0 <= i < |stack| && dir < stack[i] ==> |stack[i]| == |dir| + 1 && stack[i][|dir|] !in todo)
  }

  ghost predicate Waits(stack: seq<Path>, dir: Path, todo: set<Name>, k: Path) {
    Pending(stack, k) || (dir < k && k[|dir|] in todo)
  }

  ghost predicate DirInv(nodes: Nodes, root: Path, stack: seq<Path>, owned: seq<Path>, dir: Path, todo: set<Name>) {
    && LogInv(nodes, root, owned)
    && StackInv(stack, dir, todo)
    && IsOpened(nodes, root, owned, dir) && todo <= Children(nodes, dir)
    && (forall i :: 0 <= i < |stack| ==> IsOpened(nodes, root, owned, stack[i]))
    && (forall k :: k in Descendants(nodes, root) ==> (k in owned <==> !Waits(stack, dir, todo, k)))
  }

  lemma {:induction false} ChildOnPath(nodes: Nodes, dir: Path, k: Path)
    requires WellFormed(nodes) && k in nodes && dir < k
    ensures k[|dir|] in Children(nodes, dir)
    ensures dir + [k[|dir|]] <= k
  {
    assert k[..|dir| + 1] == dir + [k[|dir|]];
    PrefixPresent(nodes, k, |dir| + 1);
    ChildrenExist(nodes, dir, k[|dir|]);
  }

  lemma {:induction false} OpenSplit(nodes: Nodes, rest: seq<Path>, dir: Path, k: Path)
    requires WellFormed(nodes) && k in nodes
    ensures Waits(rest, dir, Children(nodes, dir), k) <==> Pending(rest + [dir], k)
  {
    var stack := rest + [dir];
    if dir < k {
      assert stack[|rest|] < k;
      ChildOnPath(nodes, dir, k);
    } else if Pending(stack, k) {
      var i :| 0 <= i < |stack| && stack[i] < k;
      assert rest[i] < k;
    } else {
      assert forall i :: 0 <= i < |rest| ==> rest[i] == stack[i];
    }
  }

  lemma {:induction false} OpenStack(nodes: Nodes, rest: seq<Path>, dir: Path)
    requires Antichain(rest + [dir])
    ensures StackInv(rest, dir, Children(nodes, dir))
  {
    var stack := rest + [dir];
    forall i | 0 <= i < |rest|
      ensures rest[i] == stack[i] && !(rest[i] <= dir) && !(dir < rest[i])
    {
      assert stack[|rest|] == dir;
    }
  }

  lemma {:induction false} OpenDir(nodes: Nodes, root: Path, stack: seq<Path>, owned: seq<Path>)
    requires WellFormed(nodes) && WalkInv(nodes, root, stack, owned) && stack != []
    ensures var dir := stack[|stack| - 1];
      DirInv(nodes, root, stack[..|stack| - 1], owned, dir, Children(nodes, dir))
  {
    var dir, rest := stack[|stack| - 1], stack[..|stack| - 1];
    assert stack == rest + [dir];
    OpenStack(nodes, rest, dir);
    forall k | k in Descendants(nodes, root)
      ensures k in owned <==> !Waits(rest, dir, Children(nodes, dir), k)
    {
      OpenSplit(nodes, rest, dir, k);
    }
    forall i | 0 <= i < |rest|
      ensures IsOpened(nodes, root, owned, rest[i])
    {
      assert rest[i] == stack[i];
    }
  }

  lemma {:induction false} CloseDir(nodes: Nodes, root: Path, stack: seq<Path>, owned: seq<Path>, dir: Path)
    requires DirInv(nodes, root, stack, owned, dir, {})
    ensures WalkInv(nodes, root, stack, owned)
  {
  }

  lemma {:induction false} Start(nodes: Nodes, root: Path)
    requires Get(nodes, root) == Some(Dir)
    ensures WalkInv(nodes, root, [root], [])
  {
    forall k | k in Descendants(nodes, root)
      ensures Pending([root], k)
    {
      assert [root][0] < k;
    }
  }

  function Pushed(nodes: Nodes, stack: seq<Path>, child: Path): seq<Path>
    requires child in nodes
  {
    if nodes[child] == Dir then stack + [child] else stack
  }

  function Left(nodes: Nodes, root: Path, owned: seq<Path>): set<Path> {
    set k | k in Descendants(nodes, root) && k !in owned
  }

  /** One entry: it is visited now, and if it is a directory its own children have become pending. */
  lemma {:induction false} VisitChild(
      nodes: Nodes, root: Path, stack: seq<Path>, owned: seq<Path>, dir: Path, todo: set<Name>, n: Name)
    requires WellFormed(nodes) && DirInv(nodes, root, stack, owned, dir, todo) && n in todo
    ensures var child := dir + [n];
      && child in Descendants(nodes, root) && child !in owned
      && DirInv(nodes, root, Pushed(nodes, stack, child), owned + [child], dir, todo - {n})
      && Left(nodes, root, owned + [child]) == Left(nodes, root, owned) - {child}
  {
    var child := dir + [n];
    ChildrenExist(nodes, dir, n);
    assert child[|dir|] == n && dir < child && root < child;
    assert Waits(stack, dir, todo, child);
    VisitedLog(nodes, root, owned, child);
    VisitedStack(stack, dir, todo, n);
    VisitedSplit(nodes, root, stack, owned, dir, todo, n);
    assert StackInv(Pushed(nodes, stack, child), dir, todo - {n});
    forall i | 0 <= i < |Pushed(nodes, stack, child)|
      ensures IsOpened(nodes, root, owned + [child], Pushed(nodes, stack, child)[i])
    {
      if i < |stack| {
        assert IsOpened(nodes, root, owned, stack[i]);
      }
    }
  }

  lemma {:induction false} VisitedLog(nodes: Nodes, root: Path, owned: seq<Path>, child: Path)
    requires LogInv(nodes, root, owned) && child in Descendants(nodes, root) && child !in owned && child != []
    requires Parent(child) == root || Parent(child) in owned
    ensures LogInv(nodes, root, owned + [child])
  {
    var log := owned + [child];
    forall i | 0 <= i < |log|
      ensures log[i] != [] && (Parent(log[i]) == root || Parent(log[i]) in log[..i])
    {
      assert log[..i] == owned[..i];
      assert i == |owned| ==> owned[..i] == owned;
    }
  }

  lemma {:induction false} VisitedStack(stack: seq<Path>, dir: Path, todo: set<Name>, n: Name)
    requires StackInv(stack, dir, todo) && n in todo
    ensures StackInv(stack + [dir + [n]], dir, todo - {n})
    ensures StackInv(stack, dir, todo - {n})
  {
    var child := dir + [n];
    assert child[|dir|] == n && !(child <= dir);
    forall i | 0 <= i < |stack|
      ensures !(stack[i] <= child) && !(child <= stack[i])
    {
      PrefixOfChild(stack[i], dir, n);
      if child <= stack[i] {
        AboveChild(dir, n, stack[i]);
      }
    }
  }

  lemma {:induction false} VisitedSplit(
      nodes: Nodes, root: Path, stack: seq<Path>, owned: seq<Path>, dir: Path, todo: set<Name>, n: Name)
    requires WellFormed(nodes) && StackInv(stack, dir, todo) && n in todo && dir + [n] in nodes
    requires forall k :: k in Descendants(nodes, root) ==> (k in owned <==> !Waits(stack, dir, todo, k))
    ensures var child := dir + [n];
      forall k :: k in Descendants(nodes, root) ==>
        (k in owned + [child] <==> !Waits(Pushed(nodes, stack, child), dir, todo - {n}, k))
  {
    var child := dir + [n];
    var pushed := Pushed(nodes, stack, child);
    assert child[|dir|] == n;
    forall k | k in Descendants(nodes, root)
      ensures k in owned + [child] <==> !Waits(pushed, dir, todo - {n}, k)
    {
      PendingAfter(nodes, stack, child, k);
      if dir < k && k[|dir|] == n {
        ChildPrefix(dir, n, k);
        AboveChild(dir, n, k);
        NotPendingElsewhere(stack, dir, todo, n, k);
      } else if child <= k {
        AboveChild(dir, n, k);
      }
    }
  }

  lemma {:induction false} NotPendingElsewhere(stack: seq<Path>, dir: Path, todo: set<Name>, n: Name, k: Path)
    requires StackInv(stack, dir, todo) && n in todo && dir + [n] <= k
    ensures !Pending(stack, k)
  {
    var child := dir + [n];
    VisitedStack(stack, dir, todo, n);
    var all := stack + [child];
    forall i | 0 <= i < |stack|
      ensures !(stack[i] < k)
    {
      assert all[i] == stack[i] && all[|stack|] == child;
      if stack[i] < k {
        Comparable(stack[i], child, k);
      }
    }
  }

  lemma {:induction false} PendingAfter(nodes: Nodes, stack: seq<Path>, child: Path, k: Path)
    requires WellFormed(nodes) && child in nodes && k in nodes
    ensures Pending(Pushed(nodes, stack, child), k) <==> Pending(stack, k) || child < k
  {
    var pushed := Pushed(nodes, stack, child);
    if child < k {
      assert k[..|child|] == child;
      PrefixPresent(nodes, k, |child|);
      assert pushed[|stack|] == child;
    }
    if Pending(stack, k) {
      var i :| 0 <= i < |stack| && stack[i] < k;
      assert pushed[i] == stack[i];
    }
    if Pending(pushed, k) {
      var i :| 0 <= i < |pushed| && pushed[i] < k;
      assert i < |stack| ==> stack[i] == pushed[i];
    }
  }

  lemma {:induction false} DistinctSize(s: seq<Path>, d: set<Path>)
    requires Distinct(s) && forall k :: k in d <==> k in s
    ensures |s| == |d|
  {
    if s == [] {
      assert d == {};
    } else {
      var init, last := s[..|s| - 1], s[|s| - 1];
      assert s == init + [last];
      DistinctSize(init, d - {last});
    }
  }

  /** The directories the walk opens. */
  function Opened(nodes: Nodes, root: Path): set<Path> {
    set k | k in nodes && root <= k && nodes[k] == Dir
  }

  /** Of the directories met so far, those not still on the stack have been listed to the end. */
  ghost predicate Listed(nodes: Nodes, root: Path, stack: seq<Path>, owned: seq<Path>, unlisted: set<Path>) {
    forall k :: k in Opened(nodes, root) && (k == root || k in owned) && k !in stack ==> k !in unlisted
  }

  lemma {:induction false} VisitedListed(
      nodes: Nodes, root: Path, stack: seq<Path>, owned: seq<Path>, dir: Path, entry: Path, unlisted: set<Path>)
    requires Listed(nodes, root, stack + [dir], owned, unlisted) && entry in nodes
    ensures Listed(nodes, root, Pushed(nodes, stack, entry) + [dir], owned + [entry], unlisted)
  {
    var pushed := Pushed(nodes, stack, entry);
    assert nodes[entry] == Dir ==> pushed[|stack|] == entry;
    assert forall k :: k in stack ==> k in pushed;
    forall k | k in Opened(nodes, root) && (k == root || k in owned + [entry]) && k !in pushed + [dir]
      ensures k !in unlisted
    {
      assert k !in stack + [dir] && k != entry;
    }
  }

  /** A directory that could not be listed is one of those the contract speaks of. */
  lemma {:induction false} WalkFails(nodes: Nodes, root: Path, owned: seq<Path>, dir: Path, unlisted: set<Path>)
    requires IsOpened(nodes, root, owned, dir) && dir in unlisted
    ensures !(Opened(nodes, root) !! unlisted)
  {
    assert dir in Opened(nodes, root);
  }

  lemma {:induction false} WalkEnds(
      nodes: Nodes, root: Path, owned: seq<Path>, refused: set<Path>, unlisted: set<Path>)
    requires WalkInv(nodes, root, [], owned) && Listed(nodes, root, [], owned, unlisted)
    requires forall k :: k in owned ==> k !in refused
    ensures forall k :: k in owned <==> k in Descendants(nodes, root)
    ensures |owned| == |Descendants(nodes, root)|
    ensures Descendants(nodes, root) !! refused && Opened(nodes, root) !! unlisted
  {
    assert forall k :: k in Descendants(nodes, root) ==> !Pending([], k);
    DistinctSize(owned, Descendants(nodes, root));
    forall k | k in Opened(nodes, root)
      ensures k !in unlisted
    {
      assert k == root || k in Descendants(nodes, root);
    }
  }

  /** An entry of the walk whose type cannot be read stands above k, or is k. */
  predicate Hidden(root: Path, untyped: set<Path>, k: Path) {
    exists i :: |root| < i <= |k| && root <= k && k[..i] in untyped
  }

  /** The tree as the walk takes it: an entry whose type cannot be read is no directory, and nothing is below it. */
  function AsRead(nodes: Nodes, root: Path, untyped: set<Path>): Nodes {
    map k | k in nodes && (k == [] || !Hidden(root, untyped, Parent(k))) ::
      if root < k && k in untyped then File([]) else nodes[k]
  }

  lemma {:induction false} AsReadAt(nodes: Nodes, root: Path, untyped: set<Path>, dir: Path, n: Name)
    requires Get(AsRead(nodes, root, untyped), dir) == Some(Dir)
    ensures Get(nodes, dir) == Some(Dir) && !Hidden(root, untyped, dir)
    ensures dir + [n] in AsRead(nodes, root, untyped) <==> dir + [n] in nodes
    ensures dir + [n] in nodes && root <= dir ==>
      (AsRead(nodes, root, untyped)[dir + [n]] == Dir <==> nodes[dir + [n]] == Dir && dir + [n] !in untyped)
  {
    assert Parent(dir + [n]) == dir;
    if dir != [] {
      HiddenStep(root, untyped, dir);
    }
  }

  lemma {:induction false} HiddenStep(root: Path, untyped: set<Path>, k: Path)
    requires k != []
    ensures Hidden(root, untyped, k) <==> Hidden(root, untyped, Parent(k)) || (root < k && k in untyped)
  {
    if Hidden(root, untyped, k) {
      var i :| |root| < i <= |k| && root <= k && k[..i] in untyped;
      assert i == |k| ==> k[..i] == k;
      assert i < |k| ==> Parent(k)[..i] == k[..i];
    }
    if Hidden(root, untyped, Parent(k)) {
      HiddenBelow(root, untyped, Parent(k), k);
    }
    if root < k && k in untyped {
      assert k[..|k|] == k;
    }
  }

  /** A directory has the same entries in both, and those seen to be directories are. */
  ghost predicate SeenIn(nodes: Nodes, untyped: set<Path>, seen: Nodes, dir: Path) {
    && Children(seen, dir) == Children(nodes, dir)
    && forall n :: n in Children(nodes, dir) ==>
         && dir + [n] in nodes && dir + [n] in seen
         && (seen[dir + [n]] == Dir <==> nodes[dir + [n]] == Dir && dir + [n] !in untyped)
  }

  ghost predicate SeenAs(nodes: Nodes, root: Path, untyped: set<Path>, seen: Nodes) {
    forall dir :: root <= dir && Get(seen, dir) == Some(Dir) ==> SeenIn(nodes, untyped, seen, dir)
  }

  lemma {:induction false} AsReadIsSeen(nodes: Nodes, root: Path, untyped: set<Path>)
    ensures SeenAs(nodes, root, untyped, AsRead(nodes, root, untyped))
  {
    var seen := AsRead(nodes, root, untyped);
    forall dir | root <= dir && Get(seen, dir) == Some(Dir)
      ensures SeenIn(nodes, untyped, seen, dir)
    {
      AsReadChildren(nodes, root, untyped, dir);
      forall n | n in Children(nodes, dir)
        ensures dir + [n] in nodes && dir + [n] in seen
        ensures seen[dir + [n]] == Dir <==> nodes[dir + [n]] == Dir && dir + [n] !in untyped
      {
        ChildrenExist(nodes, dir, n);
        AsReadAt(nodes, root, untyped, dir, n);
      }
    }
  }

  lemma {:induction false} AsReadChildren(nodes: Nodes, root: Path, untyped: set<Path>, dir: Path)
    requires Get(AsRead(nodes, root, untyped), dir) == Some(Dir)
    ensures Children(AsRead(nodes, root, untyped), dir) == Children(nodes, dir)
  {
    forall n
      ensures n in Children(AsRead(nodes, root, untyped), dir) <==> n in Children(nodes, dir)
    {
      AsReadAt(nodes, root, untyped, dir, n);
      ChildrenExist(nodes, dir, n);
      ChildrenExist(AsRead(nodes, root, untyped), dir, n);
    }
  }

  lemma {:induction false} HiddenBelow(root: Path, untyped: set<Path>, p: Path, k: Path)
    requires p <= k && Hidden(root, untyped, p)
    ensures Hidden(root, untyped, k)
  {
    var i :| |root| < i <= |p| && root <= p && p[..i] in untyped;
    assert k[..i] == p[..i];
    PrefixTrans(root, p, k);
  }

  lemma {:induction false} AsReadWellFormed(nodes: Nodes, root: Path, untyped: set<Path>)
    requires WellFormed(nodes)
    ensures WellFormed(AsRead(nodes, root, untyped))
  {
    var seen := AsRead(nodes, root, untyped);
    assert !(root < []);
    forall k | k in seen && k != []
      ensures Get(seen, Parent(k)) == Some(Dir)
    {
      if Parent(k) != [] {
        HiddenStep(root, untyped, Parent(k));
      }
    }
  }

  lemma {:induction false} AsReadRoot(nodes: Nodes, root: Path, untyped: set<Path>)
    ensures Get(AsRead(nodes, root, untyped), root) == Get(nodes, root)
  {
    if root != [] {
      assert !Hidden(root, untyped, Parent(root));
    }
  }

  /** What the walk reaches: every descendant with no entry of unreadable type strictly above it.  So it reaches all
  of them if and only if nothing is below such an entry. */
  lemma {:induction false} ReachedIs(nodes: Nodes, root: Path, untyped: set<Path>)
    ensures forall k :: k in Descendants(AsRead(nodes, root, untyped), root) <==>
      k in Descendants(nodes, root) && !Hidden(root, untyped, Parent(k))
    ensures Descendants(AsRead(nodes, root, untyped), root) == Descendants(nodes, root) <==>
      forall k :: k in Descendants(nodes, root) ==> !Hidden(root, untyped, Parent(k))
  {
    assert forall k :: k in Descendants(nodes, root) ==> k != [];
  }

  /** The walk over the directory that a path leads to.  Refused are the entries whose name is not UTF-8 or whose
  owner cannot be changed; unlisted are the directories that cannot be opened or break off while being listed;
  untyped are the entries whose type cannot be read, which are taken for no directory.  The walk succeeds exactly when
  it meets none of the first two (a missing root counts as done, a file on the way to it does not), and then every
  proper descendant that it reaches has been visited exactly once and the counter is their number; these are all
  descendants but those below an untyped entry.  In every case no entry is visited twice, and each directory before
  what it contains. */
  method EnsureTreeOwnedByUser(
      nodes: Nodes, root: Path, refused: set<Path>, unlisted: set<Path>, untyped: set<Path>)
    returns (ok: bool, owned: seq<Path>, updated: nat)
    requires WellFormed(nodes) && Physical(nodes, root)
    ensures var seen := AsRead(nodes, root, untyped);
      ok <==>
        if root in nodes then
          nodes[root] == Dir && Descendants(seen, root) !! refused && Opened(seen, root) !! unlisted
        else NoFileOnTheWay(nodes, root)
    ensures Distinct(owned) && ParentsFirst(root, owned) && updated == |owned|
    ensures var reached := Descendants(AsRead(nodes, root, untyped), root);
      && (forall k :: k in owned ==> k in reached && k !in refused)
      && (ok ==> (forall k :: k in owned <==> k in reached) && updated == |reached|)
  {
    ghost var seen := AsRead(nodes, root, untyped);
    AsReadWellFormed(nodes, root, untyped);
    AsReadRoot(nodes, root, untyped);
    owned, updated := [], 0;
    if root !in nodes {
      NothingBelow(seen, root);
      ok := MissingIsDone(nodes, root);
      return;
    }
    if nodes[root] != Dir {
      return false, owned, updated;
    }
    AsReadIsSeen(nodes, root, untyped);
    ok, owned, updated := WalkFrom(nodes, seen, root, refused, unlisted, untyped);
  }

  /** The loop over the stack. */
  method WalkFrom(
      nodes: Nodes, ghost seen: Nodes, root: Path, refused: set<Path>, unlisted: set<Path>, untyped: set<Path>)
    returns (ok: bool, owned: seq<Path>, updated: nat)
    requires WellFormed(seen) && Get(seen, root) == Some(Dir) && SeenAs(nodes, root, untyped, seen)
    ensures ok <==> Descendants(seen, root) !! refused && Opened(seen, root) !! unlisted
    ensures LogInv(seen, root, owned) && updated == |owned|
    ensures forall k :: k in owned ==> k !in refused
    ensures ok ==> (forall k :: k in owned <==> k in Descendants(seen, root)) && updated == |Descendants(seen, root)|
  {
    owned, updated := [], 0;
    var stack := [root];
    Start(seen, root);
    while |stack| > 0
      invariant WalkInv(seen, root, stack, owned) && updated == |owned|
      invariant Listed(seen, root, stack, owned, unlisted)
      invariant forall k :: k in owned ==> k !in refused
      decreases Left(seen, root, owned), |stack|
    {
      var dir := stack[|stack| - 1];
      OpenDir(seen, root, stack, owned);
      assert stack == stack[..|stack| - 1] + [dir];
      var listed;
      listed, stack, owned, updated :=
        VisitEntries(nodes, seen, root, dir, stack[..|stack| - 1], owned, updated, refused, unlisted, untyped);
      if !listed {
        return false, owned, updated;
      }
    }
    assert stack == [];
    WalkEnds(seen, root, owned, refused, unlisted);
    ok := true;
  }

  /** The loop over one directory's entries: each is visited, and put on the stack if it is seen to be a directory. */
  method VisitEntries(
      nodes: Nodes, ghost seen: Nodes, root: Path, dir: Path, below: seq<Path>, before: seq<Path>, count: nat,
      refused: set<Path>, unlisted: set<Path>, untyped: set<Path>)
    returns (ok: bool, stack: seq<Path>, owned: seq<Path>, updated: nat)
    requires WellFormed(seen) && SeenIn(nodes, untyped, seen, dir)
    requires DirInv(seen, root, below, before, dir, Children(seen, dir))
    requires Listed(seen, root, below + [dir], before, unlisted)
    requires count == |before| && forall k :: k in before ==> k !in refused
    ensures LogInv(seen, root, owned) && updated == |owned| && forall k :: k in owned ==> k !in refused
    ensures !ok ==> !(Descendants(seen, root) !! refused && Opened(seen, root) !! unlisted)
    ensures ok ==> WalkInv(seen, root, stack, owned) && Listed(seen, root, stack, owned, unlisted)
    ensures ok ==>
      || Left(seen, root, owned) < Left(seen, root, before)
      || (Left(seen, root, owned) == Left(seen, root, before) && |stack| == |below|)
  {
    stack, owned, updated := below, before, count;
    var todo := Children(nodes, dir);
    while todo != {}
      invariant DirInv(seen, root, stack, owned, dir, todo) && updated == |owned|
      invariant Listed(seen, root, stack + [dir], owned, unlisted)
      invariant forall k :: k in owned ==> k !in refused
      invariant
        || Left(seen, root, owned) < Left(seen, root, before)
        || (Left(seen, root, owned) == Left(seen, root, before) && |stack| == |below|)
      decreases todo
    {
      var breaksOff: bool := *;
      if dir in unlisted && breaksOff {
        WalkFails(seen, root, owned, dir, unlisted);
        return false, stack, owned, updated;
      }
      var n :| n in todo;
      var entry := dir + [n];
      VisitChild(seen, root, stack, owned, dir, todo, n);
      VisitedListed(seen, root, stack, owned, dir, entry, unlisted);
      if entry in refused {
        return false, stack, owned, updated;
      }
      owned := owned + [entry];
      updated := updated + 1;
      if nodes[entry] == Dir && entry !in untyped {
        stack := stack + [entry];
      }
      todo := todo - {n};
    }
    if dir in unlisted {
      WalkFails(seen, root, owned, dir, unlisted);
      return false, stack, owned, updated;
    }
    CloseDir(seen, root, stack, owned, dir);
    ok := true;
  }

  /** Opening a missing root reports it as not found, unless a file is on the way. */
  method MissingIsDone(nodes: Nodes, root: Path) returns (ok: bool)
    ensures ok <==> NoFileOnTheWay(nodes, root)
  {
    for i := 0 to |root| + 1
      invariant forall j :: 0 <= j < i && root[..j] in nodes ==> nodes[root[..j]] == Dir
    {
      if root[..i] in nodes && nodes[root[..i]] != Dir {
        return false;
      }
    }
    ok := true;
  }

  lemma {:induction false} NothingBelow(nodes: Nodes, root: Path)
    requires WellFormed(nodes) && root !in nodes
    ensures Descendants(nodes, root) == {}
  {
    forall k | k in nodes && root < k
      ensures false
    {
      assert k[..|root|] == root;
      PrefixPresent(nodes, k, |root|);
    }
  }
}
