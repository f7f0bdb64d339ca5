/** Recursive directory copies between the binary cache and the installations, and the population of a cache
entry with its marker written last. */
module CopyTree {
  import opened Wrappers
  import opened Disk

  const COMPLETION_MARKER: Name := ".complete"

  // ---------- what a copy leaves behind ----------

  /** A directory never replaces what it finds; files replace files. */
  function Merged(source: Node, existing: Option<Node>): Node {
    if source == Dir && existing.Some? then existing.value else source
  }

  function Suffix(k: Path, p: Path): Path
    requires p <= k
  {
    k[|p|..]
  }

  /** The node at k once src has been copied over dst. */
  function AfterCopy(nodes: Nodes, src: Path, dst: Path, k: Path): Option<Node> {
    if dst <= k && src + Suffix(k, dst) in nodes then
      Some(Merged(nodes[src + Suffix(k, dst)], Get(nodes, k)))
    else Get(nodes, k)
  }

  /** The same when only the children in names have been done. */
  function AfterPart(nodes: Nodes, src: Path, dst: Path, names: set<Name>, k: Path): Option<Node> {
    if dst <= k && |k| > |dst| && k[|dst|] !in names then Get(nodes, k) else AfterCopy(nodes, src, dst, k)
  }

  predicate Apart(a: Path, b: Path) {
    !(a <= b) && !(b <= a)
  }

  /** No symbolic link stands in the destination where the source has a file or a directory: writing through
  such a link is not modelled. */
  ghost predicate NoLinkInTheWay(nodes: Nodes, src: Path, dst: Path) {
    forall q :: src + q in nodes && Get(nodes, dst + q).Some? && nodes[dst + q].Link? ==> nodes[src + q].Link?
  }

  /** What makes the copy of src + q fail: any node where a link should go, a directory where a file should go,
  a file where a directory that has children should go. */
  ghost predicate Blocked(nodes: Nodes, src: Path, dst: Path, q: Path) {
    && src + q in nodes && dst + q in nodes
    && match nodes[src + q]
       case Link(_) => true
       case File(_) => nodes[dst + q].Dir?
       case Dir => !nodes[dst + q].Dir? && Children(nodes, src + q) != {}
  }

  ghost predicate Conflict(nodes: Nodes, src: Path, dst: Path) {
    exists q :: Blocked(nodes, src, dst, q)
  }

  // ---------- one child at a time ----------

  lemma {:induction false} ApartBelow(a: Path, b: Path, k: Path)
    requires Apart(a, b) && a <= k
    ensures !(b <= k)
  {
    if b <= k {
      Comparable(a, b, k);
    }
  }

  lemma {:induction false} NoSuffix(p: Path)
    ensures p + [] == p && Suffix(p, p) == []
    ensures forall k :: p <= k && |k| <= |p| ==> k == p
  {
  }

  /** The source side of a state reached while copying. */
  lemma {:induction false} SourceUntouched(nodes: Nodes, now: Nodes, src: Path, dst: Path)
    requires Apart(src, dst)
    requires forall k :: !(dst <= k) ==> Get(now, k) == Get(nodes, k)
    ensures forall k :: src <= k ==> Get(now, k) == Get(nodes, k)
    ensures forall p :: src <= p ==> Below(now, p) == Below(nodes, p) && Children(now, p) == Children(nodes, p)
  {
    forall k | src <= k
      ensures Get(now, k) == Get(nodes, k)
    {
      ApartBelow(src, dst, k);
    }
    SameBelow(nodes, now, src);
  }

  lemma {:induction false} SameBelow(nodes: Nodes, now: Nodes, src: Path)
    requires forall k :: src <= k ==> Get(now, k) == Get(nodes, k)
    ensures forall p :: src <= p ==> Below(now, p) == Below(nodes, p) && Children(now, p) == Children(nodes, p)
  {
    forall p | src <= p
      ensures Below(now, p) == Below(nodes, p) && Children(now, p) == Children(nodes, p)
    {
      forall k | p <= k
        ensures k in now <==> k in nodes
      {
        assert src <= k;
        assert Get(now, k) == Get(nodes, k);
      }
    }
  }

  lemma {:induction false} ChildSplit(src: Path, dst: Path, n: Name, k: Path)
    requires dst + [n] <= k
    ensures dst <= k && |k| > |dst| && k[|dst|] == n
    ensures src + [n] + Suffix(k, dst + [n]) == src + Suffix(k, dst)
  {
    assert k[|dst|] == (dst + [n])[|dst|];
    assert Suffix(k, dst) == [n] + Suffix(k, dst + [n]);
  }

  /** Copying child n on top of the children in done. */
  lemma {:induction false} StepAt(base: Nodes, mid: Nodes, src: Path, dst: Path, done: set<Name>, n: Name)
    requires Apart(src, dst) && n !in done
    requires forall k :: Get(mid, k) == AfterPart(base, src, dst, done, k)
    ensures forall k :: AfterCopy(mid, src + [n], dst + [n], k) == AfterPart(base, src, dst, done + {n}, k)
  {
    SourceUntouched(base, mid, src, dst);
    forall k
      ensures AfterCopy(mid, src + [n], dst + [n], k) == AfterPart(base, src, dst, done + {n}, k)
    {
      assert Get(mid, k) == AfterPart(base, src, dst, done, k);
      if dst + [n] <= k {
        ChildSplit(src, dst, n, k);
        var s := src + Suffix(k, dst);
        assert src <= s;
        assert Get(mid, s) == Get(base, s);
      } else if dst <= k && |k| > |dst| {
        ChildPrefix(dst, n, k);
      }
    }
  }

  /** The obstacles under a child are those of the whole copy, and do not depend on what was done before. */
  lemma {:induction false} ChildBlocked(
      nodes: Nodes, mid: Nodes, src: Path, dst: Path, done: set<Name>, n: Name, q: Path)
    requires Apart(src, dst) && n !in done
    requires forall k :: Get(mid, k) == AfterPart(nodes, src, dst, done, k)
    ensures Blocked(mid, src + [n], dst + [n], q) <==> Blocked(nodes, src, dst, [n] + q)
  {
    SourceUntouched(nodes, mid, src, dst);
    assert src + [n] + q == src + ([n] + q);
    assert dst + [n] + q == dst + ([n] + q);
    var s, d := src + [n] + q, dst + [n] + q;
    assert src <= s;
    assert Get(mid, s) == Get(nodes, s);
    assert d[|dst|] == n && dst <= d;
    assert Get(mid, d) == AfterPart(nodes, src, dst, done, d);
  }

  /** A file or a link has nothing below it. */
  lemma {:induction false} LeafAlone(nodes: Nodes, p: Path, q: Path)
    requires WellFormed(nodes) && p in nodes && nodes[p] != Dir
    ensures p + q in nodes <==> q == []
  {
    assert p + [] == p;
    if p + q in nodes && q != [] {
      assert (p + q)[..|p|] == p;
      PrefixPresent(nodes, p + q, |p|);
    }
  }

  lemma {:induction false} LeafCopied(nodes: Nodes, now: Nodes, src: Path, dst: Path)
    requires WellFormed(nodes) && src in nodes && nodes[src] != Dir
    requires now == nodes[dst := nodes[src]]
    ensures forall k :: Get(now, k) == AfterCopy(nodes, src, dst, k)
  {
    forall k
      ensures Get(now, k) == AfterCopy(nodes, src, dst, k)
    {
      NoSuffix(dst);
      NoSuffix(src);
      if dst <= k {
        LeafAlone(nodes, src, Suffix(k, dst));
        assert k == dst + Suffix(k, dst);
      }
    }
  }

  lemma {:induction false} LeafConflict(nodes: Nodes, src: Path, dst: Path)
    requires WellFormed(nodes) && src in nodes && nodes[src] != Dir
    ensures Conflict(nodes, src, dst) <==> dst in nodes && (nodes[src].Link? || nodes[dst].Dir?)
  {
    assert src + [] == src && dst + [] == dst;
    if dst in nodes && (nodes[src].Link? || nodes[dst].Dir?) {
      assert Blocked(nodes, src, dst, []);
    }
    forall q | Blocked(nodes, src, dst, q)
      ensures q == []
    {
      LeafAlone(nodes, src, q);
    }
  }

  /** One entry of the listing: a directory is copied recursively, a link is made anew, a file is rewritten. */
  method CopyEntry(fs: FileSystem, src: Path, dst: Path) returns (ok: bool)
    requires WellFormed(fs.nodes) && src in fs.nodes
    requires dst != [] && Parent(dst) in fs.nodes && !fs.nodes[Parent(dst)].Link?
    requires Apart(src, dst) && NoLinkInTheWay(fs.nodes, src, dst)
    modifies fs`nodes
    ensures WellFormed(fs.nodes)
    ensures ok <==> Get(old(fs.nodes), Parent(dst)) == Some(Dir) && !Conflict(old(fs.nodes), src, dst)
    ensures ok ==> forall k :: Get(fs.nodes, k) == AfterCopy(old(fs.nodes), src, dst, k)
    ensures OnTheWay(old(fs.nodes), fs.nodes, src, dst)
    decreases |Below(fs.nodes, src)|, 2
  {
    assert src + [] == src && dst + [] == dst;
    DirIsPhysical(fs.nodes, Parent(dst));
    PhysicalChild(fs.nodes, dst);
    match fs.nodes[src]
    case Dir =>
      DirIsPhysical(fs.nodes, src);
      PreparedChild(fs.nodes, src, dst);
      ok := CopyDirRecursive(fs, src, dst);
      ChildOnTheWay(old(fs.nodes), fs.nodes, src, dst);
    case Link(target) =>
      LeafConflict(fs.nodes, src, dst);
      ok := fs.Symlink(dst, target);
      if ok {
        LeafCopied(old(fs.nodes), fs.nodes, src, dst);
      }
    case File(bytes) =>
      LeafConflict(fs.nodes, src, dst);
      ok := fs.WriteFile(dst, bytes);
      if ok {
        LeafCopied(old(fs.nodes), fs.nodes, src, dst);
      }
  }

  /** The tree in which the children are copied: the destination is made first unless there is something. */
  function Prepared(nodes: Nodes, dst: Path): Nodes {
    if dst in nodes then nodes else WithDirs(nodes, dst)
  }

  predicate CanPrepare(nodes: Nodes, dst: Path) {
    dst in nodes || NoFileOnTheWay(nodes, dst)
  }

  lemma {:induction false} PreparedSource(nodes: Nodes, src: Path, dst: Path)
    requires Apart(src, dst)
    ensures forall k :: src <= k ==> Get(Prepared(nodes, dst), k) == Get(nodes, k)
    ensures Below(Prepared(nodes, dst), src) == Below(nodes, src)
    ensures NoLinkInTheWay(nodes, src, dst) ==> NoLinkInTheWay(Prepared(nodes, dst), src, dst)
  {
    var now := Prepared(nodes, dst);
    WithDirsGet(nodes, dst);
    forall k | src <= k
      ensures Get(now, k) == Get(nodes, k)
    {
      if k <= dst {
        PrefixTrans(src, k, dst);
      }
    }
    SameBelow(nodes, now, src);
    forall q
      ensures Get(now, src + q) == Get(nodes, src + q)
      ensures Get(now, dst + q).Some? && now[dst + q].Link? ==> Get(nodes, dst + q) == Get(now, dst + q)
    {
      assert src <= src + q;
    }
  }

  /** Making an absent child of a directory first changes nothing about what the copy does. */
  lemma {:induction false} PreparedChild(nodes: Nodes, src: Path, dst: Path)
    requires WellFormed(nodes) && Apart(src, dst) && Get(nodes, src) == Some(Dir)
    requires dst != [] && Parent(dst) in nodes
    ensures CanPrepare(nodes, dst) <==> Get(nodes, Parent(dst)) == Some(Dir)
    ensures CanPrepare(nodes, dst) ==> (Conflict(Prepared(nodes, dst), src, dst) <==> Conflict(nodes, src, dst))
    ensures CanPrepare(nodes, dst) ==>
      forall k :: AfterCopy(Prepared(nodes, dst), src, dst, k) == AfterCopy(nodes, src, dst, k)
    ensures CanPrepare(nodes, dst) ==>
      OnTheWay(nodes, Prepared(nodes, dst), src, dst)
  {
    if dst !in nodes {
      AbsentOnTheWay(nodes, dst);
      PresentOnTheWay(nodes, Parent(dst));
      if nodes[Parent(dst)] == Dir {
        forall k
          ensures Get(Prepared(nodes, dst), k) == if k == dst then Some(Dir) else Get(nodes, k)
        {
          assert Prepared(nodes, dst) == nodes[dst := Dir];
        }
        MadeDirectory(nodes, Prepared(nodes, dst), src, dst);
      }
    }
  }

  lemma {:induction false} ChildOnTheWay(nodes: Nodes, now: Nodes, src: Path, dst: Path)
    requires CanPrepare(nodes, dst) ==>
      forall k :: AfterCopy(Prepared(nodes, dst), src, dst, k) == AfterCopy(nodes, src, dst, k)
    requires CanPrepare(nodes, dst) ==>
      OnTheWay(nodes, Prepared(nodes, dst), src, dst)
    requires now == nodes || (CanPrepare(nodes, dst) && OnTheWay(Prepared(nodes, dst), now, src, dst))
    ensures OnTheWay(nodes, now, src, dst)
  {
    forall k
      ensures Get(now, k) == Get(nodes, k) || Get(now, k) == AfterCopy(nodes, src, dst, k)
    {
      if now != nodes {
        var mid := Prepared(nodes, dst);
        assert Get(now, k) == Get(mid, k) || Get(now, k) == AfterCopy(mid, src, dst, k);
      }
    }
  }

  lemma {:induction false} MadeDirectory(nodes: Nodes, now: Nodes, src: Path, dst: Path)
    requires WellFormed(nodes) && Apart(src, dst) && dst !in nodes && Get(nodes, src) == Some(Dir)
    requires forall k :: Get(now, k) == if k == dst then Some(Dir) else Get(nodes, k)
    ensures !Conflict(nodes, src, dst) && !Conflict(now, src, dst)
    ensures forall k :: AfterCopy(now, src, dst, k) == AfterCopy(nodes, src, dst, k)
    ensures Get(now, dst) == AfterCopy(nodes, src, dst, dst)
  {
    SourceUntouched(nodes, now, src, dst);
    NoSuffix(src);
    NoSuffix(dst);
    assert Get(now, dst) == Some(Dir);
    forall k | dst <= k && k != dst
      ensures k !in nodes && k !in now
    {
      if k in nodes {
        assert k[..|dst|] == dst;
        PrefixPresent(nodes, k, |dst|);
      }
      assert Get(now, k) == Get(nodes, k);
    }
    forall q
      ensures dst + q in now ==> q == []
      ensures dst + q !in nodes
      ensures Get(now, src + q) == Get(nodes, src + q)
    {
      assert dst <= dst + q && src <= src + q;
    }
    forall k
      ensures AfterCopy(now, src, dst, k) == AfterCopy(nodes, src, dst, k)
    {
      assert Get(now, k) == if k == dst then Some(Dir) else Get(nodes, k);
      if dst <= k {
        assert Get(now, src + Suffix(k, dst)) == Get(nodes, src + Suffix(k, dst));
      }
    }
  }

  /** The state of the loop: the children in done are copied, nothing else has changed, nothing was in the way. */
  ghost predicate PartDone(base: Nodes, now: Nodes, src: Path, dst: Path, done: set<Name>) {
    && (forall k :: Get(now, k) == AfterPart(base, src, dst, done, k))
    && (done != {} ==> Get(base, dst) == Some(Dir))
    && (forall q :: q != [] && q[0] in done ==> !Blocked(base, src, dst, q))
  }

  lemma {:induction false} PartStart(base: Nodes, src: Path, dst: Path)
    requires Get(base, src) == Some(Dir) && dst in base
    ensures PartDone(base, base, src, dst, {})
  {
    NoSuffix(src);
    NoSuffix(dst);
  }

  lemma {:induction false} EntryPreconditions(base: Nodes, mid: Nodes, src: Path, dst: Path, done: set<Name>, n: Name)
    requires Apart(src, dst) && NoLinkInTheWay(base, src, dst) && n !in done && n in Children(base, src)
    requires dst in base && Get(base, src) == Some(Dir)
    requires PartDone(base, mid, src, dst, done)
    ensures Apart(src + [n], dst + [n]) && NoLinkInTheWay(mid, src + [n], dst + [n])
    ensures src + [n] in mid && dst + [n] != [] && Parent(dst + [n]) in mid && !mid[Parent(dst + [n])].Link?
    ensures Get(mid, Parent(dst + [n])) == Get(base, dst)
    ensures |Below(mid, src + [n])| < |Below(base, src)|
  {
    SourceUntouched(base, mid, src, dst);
    ChildrenExist(base, src, n);
    assert src <= src + [n] && Get(mid, src + [n]) == Get(base, src + [n]);
    NoSuffix(src);
    NoSuffix(dst);
    assert Parent(dst + [n]) == dst && Get(mid, dst) == AfterPart(base, src, dst, done, dst);
    assert src + [] == src && dst + [] == dst;
    BelowChildSmaller(base, src, n);
    ApartBelow(src, dst, src + [n]);
    ApartBelow(dst, src, dst + [n]);
    assert (src + [n])[..|src|] == src && (dst + [n])[..|dst|] == dst;
    assert src + [n] <= dst + [n] ==> |src| == |dst| && src == dst;
    forall q | src + [n] + q in mid && Get(mid, dst + [n] + q).Some? && mid[dst + [n] + q].Link?
      ensures mid[src + [n] + q].Link?
    {
      assert src + [n] + q == src + ([n] + q) && dst + [n] + q == dst + ([n] + q);
      var d := dst + ([n] + q);
      assert dst <= d && d[|dst|] == n;
      assert Get(mid, d) == AfterPart(base, src, dst, done, d) == Get(base, d);
      assert src <= src + ([n] + q);
      assert Get(mid, src + ([n] + q)) == Get(base, src + ([n] + q));
    }
  }

  lemma {:induction false} PartNext(base: Nodes, mid: Nodes, now: Nodes, src: Path, dst: Path, done: set<Name>, n: Name)
    requires Apart(src, dst) && n !in done
    requires PartDone(base, mid, src, dst, done)
    requires Get(base, dst) == Some(Dir) && !Conflict(mid, src + [n], dst + [n])
    requires forall k :: Get(now, k) == AfterCopy(mid, src + [n], dst + [n], k)
    ensures PartDone(base, now, src, dst, done + {n})
  {
    StepAt(base, mid, src, dst, done, n);
    forall q | q != [] && q[0] == n
      ensures !Blocked(base, src, dst, q)
    {
      assert q == [n] + q[1..];
      ChildBlocked(base, mid, src, dst, done, n, q[1..]);
    }
  }

  lemma {:induction false} PartFails(base: Nodes, mid: Nodes, src: Path, dst: Path, done: set<Name>, n: Name)
    requires Apart(src, dst) && n !in done && n in Children(base, src)
    requires dst in base && Get(base, src) == Some(Dir)
    requires PartDone(base, mid, src, dst, done)
    requires Get(base, dst) != Some(Dir) || Conflict(mid, src + [n], dst + [n])
    ensures Conflict(base, src, dst)
  {
    NoSuffix(src);
    NoSuffix(dst);
    if base[dst] != Dir {
      assert Blocked(base, src, dst, []);
    } else {
      var q :| Blocked(mid, src + [n], dst + [n], q);
      ChildBlocked(base, mid, src, dst, done, n, q);
    }
  }

  /** With every child done the copy is complete, and nothing was in the way. */
  lemma {:induction false} PartComplete(base: Nodes, now: Nodes, src: Path, dst: Path)
    requires WellFormed(base) && Get(base, src) == Some(Dir) && dst in base
    requires PartDone(base, now, src, dst, Children(base, src))
    ensures forall k :: Get(now, k) == AfterCopy(base, src, dst, k)
    ensures !Conflict(base, src, dst)
  {
    NoSuffix(src);
    forall q | src + q in base && q != []
      ensures q[0] in Children(base, src)
    {
      PrefixPresent(base, src + q, |src| + 1);
      assert (src + q)[..|src| + 1] == src + [q[0]];
      ChildrenExist(base, src, q[0]);
    }
    forall k
      ensures Get(now, k) == AfterCopy(base, src, dst, k)
    {
      assert Get(now, k) == AfterPart(base, src, dst, Children(base, src), k);
      if dst <= k && |k| > |dst| {
        assert Suffix(k, dst)[0] == k[|dst|];
      }
    }
    NoSuffix(dst);
    forall q
      ensures !Blocked(base, src, dst, q)
    {
      if q != [] && src + q in base {
        assert q[0] in Children(base, src);
      }
    }
  }

  /** Wherever the copy stops, each path is as before or as the whole copy would leave it. */
  ghost predicate OnTheWay(nodes: Nodes, now: Nodes, src: Path, dst: Path) {
    forall k :: Get(now, k) == Get(nodes, k) || Get(now, k) == AfterCopy(nodes, src, dst, k)
  }

  lemma {:induction false} PartOnTheWay(
      base: Nodes, mid: Nodes, now: Nodes, src: Path, dst: Path, done: set<Name>, n: Name)
    requires Apart(src, dst) && n !in done
    requires PartDone(base, mid, src, dst, done)
    requires OnTheWay(mid, now, src + [n], dst + [n])
    ensures OnTheWay(base, now, src, dst)
  {
    StepAt(base, mid, src, dst, done, n);
    forall k
      ensures Get(now, k) == Get(base, k) || Get(now, k) == AfterCopy(base, src, dst, k)
    {
      assert Get(now, k) == Get(mid, k) || Get(now, k) == AfterCopy(mid, src + [n], dst + [n], k);
      assert Get(mid, k) == AfterPart(base, src, dst, done, k);
    }
  }

  /** The loop over the directory listing. */
  method CopyChildren(fs: FileSystem, src: Path, dst: Path) returns (ok: bool)
    requires WellFormed(fs.nodes)
    requires Get(fs.nodes, src) == Some(Dir) && dst != [] && dst in fs.nodes
    requires Apart(src, dst) && NoLinkInTheWay(fs.nodes, src, dst)
    modifies fs`nodes
    ensures WellFormed(fs.nodes)
    ensures ok <==> !Conflict(old(fs.nodes), src, dst)
    ensures ok ==> forall k :: Get(fs.nodes, k) == AfterCopy(old(fs.nodes), src, dst, k)
    ensures OnTheWay(old(fs.nodes), fs.nodes, src, dst)
    decreases |Below(fs.nodes, src)|, 0
  {
    ghost var base := fs.nodes;
    var todo := Children(fs.nodes, src);
    ghost var done: set<Name> := {};
    PartStart(base, src, dst);
    while todo != {}
      invariant todo !! done && todo + done == Children(base, src)
      invariant WellFormed(fs.nodes)
      invariant PartDone(base, fs.nodes, src, dst, done)
      decreases todo
    {
      var n :| n in todo;
      ghost var mid := fs.nodes;
      EntryPreconditions(base, mid, src, dst, done, n);
      var copied := CopyEntry(fs, src + [n], dst + [n]);
      if !copied {
        PartFails(base, mid, src, dst, done, n);
        PartOnTheWay(base, mid, fs.nodes, src, dst, done, n);
        return false;
      }
      PartNext(base, mid, fs.nodes, src, dst, done, n);
      todo, done := todo - {n}, done + {n};
    }
    PartComplete(base, fs.nodes, src, dst);
    ok := true;
  }

  /** Copies src over dst, child by child in whatever order the directory is listed.  It succeeds exactly when
  nothing is in the way, and then dst holds src merged with what was there. */
  method CopyDirRecursive(fs: FileSystem, src: Path, dst: Path) returns (ok: bool)
    requires WellFormed(fs.nodes) && Physical(fs.nodes, src) && Physical(fs.nodes, dst)
    requires Apart(src, dst) && NoLinkInTheWay(fs.nodes, src, dst)
    modifies fs`nodes
    ensures WellFormed(fs.nodes)
    ensures ok <==>
      && CanPrepare(old(fs.nodes), dst)
      && Get(old(fs.nodes), src) == Some(Dir)
      && !Conflict(Prepared(old(fs.nodes), dst), src, dst)
    ensures ok ==> forall k :: Get(fs.nodes, k) == AfterCopy(Prepared(old(fs.nodes), dst), src, dst, k)
    ensures
      if CanPrepare(old(fs.nodes), dst) then OnTheWay(Prepared(old(fs.nodes), dst), fs.nodes, src, dst)
      else fs.nodes == old(fs.nodes)
    decreases |Below(fs.nodes, src)|, 1
  {
    if dst !in fs.nodes {
      PhysicalStays(fs.nodes, fs.follow, dst, MAX_LINKS);
      var made := fs.CreateDirAll(dst);
      if !made {
        return false;
      }
      WithDirsGet(old(fs.nodes), dst);
    }
    PreparedSource(old(fs.nodes), src, dst);
    assert Get(fs.nodes, src) == Get(old(fs.nodes), src);
    if src !in fs.nodes || !fs.nodes[src].Dir? {
      return false;
    }
    ok := CopyChildren(fs, src, dst);
  }

  // ---------- cache entries ----------

  /** What a successful population leaves: the copy, and an empty marker. */
  ghost predicate Populated(nodes: Nodes, now: Nodes, source: Path, entry: Path) {
    forall k :: Get(now, k) ==
      if k == entry + [COMPLETION_MARKER] then Some(File([])) else AfterCopy(WithDirs(nodes, entry), source, entry, k)
  }

  /** What a failed one leaves: part of the copy. */
  ghost predicate StoppedAt(nodes: Nodes, now: Nodes, source: Path, entry: Path) {
    OnTheWay(WithDirs(nodes, entry), now, source, entry)
  }

  ghost predicate Installed(nodes: Nodes, now: Nodes, entry: Path, target: Path) {
    forall k :: Get(now, k) == AfterCopy(WithDirs(nodes, target), entry, target, k)
  }

  /** The directory that the target leads to, when it can be made. */
  function TargetDir(nodes: Nodes, follow: Follow, target: Path): Option<Path> {
    match Resolve(nodes, follow, target)
    case None => None
    case Some(t) => if NoFileOnTheWay(nodes, t) then Some(t) else None
  }

  /** What the source leads to once the target has been made. */
  function SourceDir(nodes: Nodes, follow: Follow, source: Path, target: Path): Option<Path> {
    match TargetDir(nodes, follow, target)
    case None => None
    case Some(t) => Resolve(WithDirs(nodes, t), follow, source)
  }

  /** The two directories do not overlap, and no link below the target stands where a file or directory goes. */
  ghost predicate Copyable(nodes: Nodes, follow: Follow, source: Path, target: Path) {
    SourceDir(nodes, follow, source, target).Some? ==>
      var (s, t) := (SourceDir(nodes, follow, source, target).value, TargetDir(nodes, follow, target).value);
      Apart(s, t) && NoLinkInTheWay(WithDirs(nodes, t), s, t)
  }

  /** Copies a cache entry into an installation directory; both may be reached through links.  It fails with the
  tree unchanged when the target cannot be made, and with the target made when the source is not found. */
  method CopyFromCache(fs: FileSystem, source: Path, target: Path) returns (ok: bool)
    requires WellFormed(fs.nodes) && Copyable(fs.nodes, fs.follow, source, target)
    modifies fs`nodes
    ensures WellFormed(fs.nodes)
    ensures var (src, dst) :=
        (SourceDir(old(fs.nodes), fs.follow, source, target), TargetDir(old(fs.nodes), fs.follow, target));
      && (dst.None? ==> !ok && fs.nodes == old(fs.nodes))
      && (dst.Some? && src.None? ==> !ok && fs.nodes == WithDirs(old(fs.nodes), dst.value))
      && (src.Some? ==>
            && (ok <==>
                  && Get(old(fs.nodes), src.value) == Some(Dir)
                  && !Conflict(WithDirs(old(fs.nodes), dst.value), src.value, dst.value))
            && (ok ==> Installed(old(fs.nodes), fs.nodes, src.value, dst.value))
            && StoppedAt(old(fs.nodes), fs.nodes, src.value, dst.value))
  {
    var made := fs.CreateDirAll(target);
    if !made {
      return false;
    }
    var src := Resolve(fs.nodes, fs.follow, source);
    if src.None? {
      return false;
    }
    ghost var dst := TargetDir(old(fs.nodes), fs.follow, target).value;
    TargetFound(old(fs.nodes), fs.follow, target);
    WalkIsPhysical(fs.nodes, fs.follow, source, MAX_LINKS);
    WithDirsGet(old(fs.nodes), dst);
    DirIsPhysical(fs.nodes, dst);
    assert Get(fs.nodes, src.value) == Get(old(fs.nodes), src.value);
    var end := Resolve(fs.nodes, fs.follow, target);
    ok := CopyDirRecursive(fs, src.value, end.value);
  }

  lemma {:induction false} TargetFound(nodes: Nodes, follow: Follow, target: Path)
    requires TargetDir(nodes, follow, target).Some?
    ensures var t := TargetDir(nodes, follow, target).value;
      Resolve(WithDirs(nodes, t), follow, target) == Some(t) && Get(WithDirs(nodes, t), t) == Some(Dir)
  {
    var t := TargetDir(nodes, follow, target).value;
    WalkFindsNewDirs(nodes, follow, target, MAX_LINKS, t);
    WithDirsAt(nodes, t, t);
  }

  lemma {:induction false} CopyKeepsLinks(base: Nodes, now: Nodes, src: Path, dst: Path)
    requires !Conflict(base, src, dst) && NoLinkInTheWay(base, src, dst)
    requires forall k :: Get(now, k) == AfterCopy(base, src, dst, k)
    ensures LinksStay(base, now)
  {
    forall k | k in base
      ensures k in now && (base[k].Link? || now[k].Link? ==> base[k] == now[k])
    {
      assert Get(now, k) == AfterCopy(base, src, dst, k);
      if dst <= k {
        var q := Suffix(k, dst);
        assert k == dst + q;
        assert !Blocked(base, src, dst, q);
      }
    }
  }

  /** A marker that is itself a link, in the source or left in the entry, is not modelled. */
  ghost predicate MarkerIsNoLink(nodes: Nodes, follow: Follow, source: Path, entry: Path) {
    SourceDir(nodes, follow, source, entry).Some? ==>
      var (s, e) := (SourceDir(nodes, follow, source, entry).value, TargetDir(nodes, follow, entry).value);
      && (s + [COMPLETION_MARKER] in nodes ==> !nodes[s + [COMPLETION_MARKER]].Link?)
      && (e + [COMPLETION_MARKER] in nodes ==> !nodes[e + [COMPLETION_MARKER]].Link?)
  }

  /** What the copy puts at the marker's place before the marker is written. */
  function AtMarker(nodes: Nodes, source: Path, entry: Path): Option<Node> {
    AfterCopy(WithDirs(nodes, entry), source, entry, entry + [COMPLETION_MARKER])
  }

  lemma {:induction false} MarkerPlace(nodes: Nodes, source: Path, entry: Path)
    requires Apart(source, entry)
    ensures var s, e := Get(nodes, source + [COMPLETION_MARKER]), Get(nodes, entry + [COMPLETION_MARKER]);
      AtMarker(nodes, source, entry) == if s.Some? then Some(Merged(s.value, e)) else e
  {
    WithDirsGet(nodes, entry);
    PrefixApart(source, entry, [COMPLETION_MARKER]);
    assert Suffix(entry + [COMPLETION_MARKER], entry) == [COMPLETION_MARKER];
  }

  /** Fills a cache entry: the copy first, the marker last.  A directory at the marker's place makes it fail. */
  method PopulateCache(fs: FileSystem, source: Path, cacheDir: Path, version: Name) returns (ok: bool)
    requires WellFormed(fs.nodes) && Copyable(fs.nodes, fs.follow, source, cacheDir + [version])
    requires MarkerIsNoLink(fs.nodes, fs.follow, source, cacheDir + [version])
    modifies fs`nodes
    ensures WellFormed(fs.nodes)
    ensures var entry := cacheDir + [version];
      var (src, dst) :=
        (SourceDir(old(fs.nodes), fs.follow, source, entry), TargetDir(old(fs.nodes), fs.follow, entry));
      && (dst.None? ==> !ok && fs.nodes == old(fs.nodes))
      && (dst.Some? && src.None? ==> !ok && fs.nodes == WithDirs(old(fs.nodes), dst.value))
      && (src.Some? ==>
            && (ok <==>
                  && Get(old(fs.nodes), src.value) == Some(Dir)
                  && !Conflict(WithDirs(old(fs.nodes), dst.value), src.value, dst.value)
                  && AtMarker(old(fs.nodes), src.value, dst.value) != Some(Dir))
            && (ok ==> Populated(old(fs.nodes), fs.nodes, src.value, dst.value))
            && (!ok ==> StoppedAt(old(fs.nodes), fs.nodes, src.value, dst.value)))
  {
    var entry := cacheDir + [version];
    ok := CopyFromCache(fs, source, entry);
    if !ok {
      return;
    }
    ghost var src := SourceDir(old(fs.nodes), fs.follow, source, entry).value;
    ghost var dst := TargetDir(old(fs.nodes), fs.follow, entry).value;
    EntryFound(old(fs.nodes), fs.nodes, fs.follow, entry, src, dst);
    MarkerPlace(old(fs.nodes), src, dst);
    var end := Resolve(fs.nodes, fs.follow, entry);
    var marker := end.value + [COMPLETION_MARKER];
    assert Parent(marker) == dst;
    DirIsPhysical(fs.nodes, dst);
    PhysicalChild(fs.nodes, marker);
    ok := fs.WriteFile(marker, []);
  }

  /** The entry is found again after the copy. */
  lemma {:induction false} EntryFound(nodes: Nodes, now: Nodes, follow: Follow, entry: Path, src: Path, dst: Path)
    requires WellFormed(nodes) && TargetDir(nodes, follow, entry) == Some(dst)
    requires Get(nodes, src) == Some(Dir) && Apart(src, dst)
    requires !Conflict(WithDirs(nodes, dst), src, dst) && NoLinkInTheWay(WithDirs(nodes, dst), src, dst)
    requires Installed(nodes, now, src, dst)
    ensures Resolve(now, follow, entry) == Some(dst) && Get(now, dst) == Some(Dir)
  {
    TargetFound(nodes, follow, entry);
    WithDirsWellFormed(nodes, dst);
    CopyKeepsLinks(WithDirs(nodes, dst), now, src, dst);
    WalkStays(WithDirs(nodes, dst), now, follow, entry, MAX_LINKS);
    WithDirsGet(nodes, dst);
    NoSuffix(src);
    NoSuffix(dst);
    assert Get(now, dst) == AfterCopy(WithDirs(nodes, dst), src, dst, dst);
  }

  /** A population that fails, or is cut short by a failure, writes no marker of its own accord. */
  lemma {:induction false} NoNewMarker(nodes: Nodes, now: Nodes, source: Path, entry: Path)
    requires Apart(source, entry) && StoppedAt(nodes, now, source, entry)
    requires source + [COMPLETION_MARKER] !in nodes
    ensures Get(now, entry + [COMPLETION_MARKER]) == Get(nodes, entry + [COMPLETION_MARKER])
  {
    MarkerPlace(nodes, source, entry);
    WithDirsAt(nodes, entry, entry + [COMPLETION_MARKER]);
  }

  /** Populating an absent entry and installing from it into an absent directory gives back exactly the
  original tree plus the empty marker, for every tree: files, nested directories and links. */
  lemma {:induction false} RoundTrip(nodes: Nodes, cached: Nodes, now: Nodes, source: Path, entry: Path, target: Path)
    requires WellFormed(nodes) && Get(nodes, source) == Some(Dir)
    requires entry !in nodes && target !in nodes
    requires Apart(source, entry) && Apart(source, target) && Apart(entry, target)
    requires Populated(nodes, cached, source, entry) && Installed(cached, now, entry, target)
    ensures forall q ::
      Get(now, target + q) == if q == [COMPLETION_MARKER] then Some(File([])) else Get(nodes, source + q)
    ensures forall q :: Get(now, source + q) == Get(nodes, source + q)
  {
    EntryHolds(nodes, cached, source, entry, []);
    NoSuffix(source);
    NoSuffix(entry);
    WithDirsGet(nodes, entry);
    WithDirsGet(cached, target);
    forall q
      ensures Get(now, target + q) == if q == [COMPLETION_MARKER] then Some(File([])) else Get(nodes, source + q)
      ensures Get(now, source + q) == Get(nodes, source + q)
    {
      EntryHolds(nodes, cached, source, entry, q);
      ApartBelow(target, entry, target + q);
      AbsentBelow(nodes, target, q);
      PrefixApart(target, entry, q);
      assert entry <= entry + [COMPLETION_MARKER];
      assert Get(cached, target + q) == Get(WithDirs(nodes, entry), target + q);
      TargetHolds(cached, now, entry, target, q);
      ApartBelow(source, target, source + q);
      PrefixApart(source, target, q);
      assert Get(now, source + q) == Get(WithDirs(cached, target), source + q);
    }
  }

  lemma {:induction false} PrefixApart(a: Path, b: Path, q: Path)
    requires Apart(a, b)
    ensures !(a + q <= b)
  {
    assert a <= a + q;
    if a + q <= b {
      PrefixTrans(a, a + q, b);
    }
  }

  lemma {:induction false} AbsentBelow(nodes: Nodes, p: Path, q: Path)
    requires WellFormed(nodes) && p !in nodes
    ensures p + q !in nodes
  {
    assert (p + q)[..|p|] == p;
    if p + q in nodes {
      PrefixPresent(nodes, p + q, |p|);
    }
  }

  lemma {:induction false} EntryHolds(nodes: Nodes, cached: Nodes, source: Path, entry: Path, q: Path)
    requires WellFormed(nodes) && Get(nodes, source) == Some(Dir) && entry !in nodes
    requires Apart(source, entry) && Populated(nodes, cached, source, entry)
    ensures Get(cached, entry + q) == if q == [COMPLETION_MARKER] then Some(File([])) else Get(nodes, source + q)
    ensures Get(cached, source + q) == Get(nodes, source + q)
  {
    WithDirsGet(nodes, entry);
    AbsentBelow(nodes, entry, q);
    ApartBelow(source, entry, source + q);
    PrefixApart(source, entry, q);
    NoSuffix(source);
    assert Suffix(entry + q, entry) == q;
    assert Get(cached, entry + q) ==
      if entry + q == entry + [COMPLETION_MARKER] then Some(File([]))
      else AfterCopy(WithDirs(nodes, entry), source, entry, entry + q);
    assert entry + q == entry + [COMPLETION_MARKER] ==>
      q == Suffix(entry + [COMPLETION_MARKER], entry) == [COMPLETION_MARKER];
    assert !(entry <= source + q);
    assert source + q != entry + [COMPLETION_MARKER] by { assert entry <= entry + [COMPLETION_MARKER]; }
    assert Get(cached, source + q) == AfterCopy(WithDirs(nodes, entry), source, entry, source + q);
    assert entry + q <= entry ==> q == [];
  }

  lemma {:induction false} TargetHolds(cached: Nodes, now: Nodes, entry: Path, target: Path, q: Path)
    requires Installed(cached, now, entry, target) && Apart(entry, target)
    requires Get(cached, target + q) == None
    requires q == [] ==> Get(cached, entry) == Some(Dir)
    ensures Get(now, target + q) == Get(cached, entry + q)
  {
    WithDirsGet(cached, target);
    PrefixApart(entry, target, q);
    NoSuffix(entry);
    NoSuffix(target);
    assert Suffix(target + q, target) == q;
    assert Get(now, target + q) == AfterCopy(WithDirs(cached, target), entry, target, target + q);
    assert target + q <= target ==> q == [];
  }

  /** Both copies of the round trip succeed when no file stands on the way. */
  lemma {:induction false} AbsentTargetIsFree(nodes: Nodes, source: Path, target: Path)
    requires WellFormed(nodes) && Get(nodes, source) == Some(Dir) && target !in nodes && Apart(source, target)
    ensures !Conflict(WithDirs(nodes, target), source, target)
    ensures NoLinkInTheWay(WithDirs(nodes, target), source, target)
  {
    WithDirsGet(nodes, target);
    NoSuffix(source);
    forall q | target + q in WithDirs(nodes, target)
      ensures q == []
    {
      AbsentBelow(nodes, target, q);
      assert Get(WithDirs(nodes, target), target + q) == if target + q <= target then Some(Dir) else None;
    }
    NoSuffix(target);
    assert Get(WithDirs(nodes, target), target) == Some(Dir);
    assert Get(WithDirs(nodes, target), source) == Some(Dir);
  }

  /** Repeating a population over an entry in which a link was already made fails, so such an entry never
  completes. */
  lemma {:induction false} LeftoverLinkBlocks(nodes: Nodes, source: Path, entry: Path, q: Path)
    requires Get(nodes, source + q).Some? && nodes[source + q].Link?
    requires entry + q in nodes && q != [] && Apart(source, entry)
    ensures Conflict(WithDirs(nodes, entry), source, entry)
  {
    WithDirsGet(nodes, entry);
    PrefixApart(source, entry, q);
    var all := WithDirs(nodes, entry);
    assert Get(all, source + q) == Get(nodes, source + q);
    assert Get(all, entry + q) == Get(nodes, entry + q) || entry + q <= entry;
    assert Blocked(all, source, entry, q);
  }
}
