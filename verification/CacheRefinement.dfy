/** The file system copies do to a cache entry what the protocol's steps say they do: success leaves the packed
source, failure leaves a partial entry, and only a link of an earlier attempt stops a repeated one. */
module CacheRefinement {
  import opened Wrappers
  import opened Disk
  import opened CopyTree
  import P = CacheProtocol

  /** What stands at and under p, by relative path. */
  function Tree(nodes: Nodes, p: Path): Nodes {
    map q | q in (set k | k in Below(nodes, p) :: Suffix(k, p)) && p + q in nodes :: nodes[p + q]
  }

  lemma {:induction false} TreeGet(nodes: Nodes, p: Path, q: Path)
    ensures Get(Tree(nodes, p), q) == Get(nodes, p + q)
  {
    if p + q in nodes {
      assert p + q in Below(nodes, p) && Suffix(p + q, p) == q;
    }
  }

  lemma {:induction false} SameTree(a: Nodes, b: Nodes)
    requires forall q :: Get(a, q) == Get(b, q)
    ensures a == b
  {
    forall q
      ensures q in a <==> q in b
      ensures q in a ==> a[q] == b[q]
    {
      assert Get(a, q) == Get(b, q);
    }
  }

  /** A source that may be used, and an entry that is absent or was left unfinished. */
  ghost predicate Repeatable(nodes: Nodes, source: Path, entry: Path) {
    && WellFormed(nodes) && Get(nodes, source) == Some(Dir) && Apart(source, entry)
    && P.MARKER !in Tree(nodes, source)
    && P.Partial(Tree(nodes, source), Tree(nodes, entry))
  }

  /** The two trees around the copy, at one relative path. */
  lemma {:induction false} CopyAt(nodes: Nodes, source: Path, entry: Path, q: Path)
    requires Repeatable(nodes, source, entry)
    ensures AfterCopy(WithDirs(nodes, entry), source, entry, entry + q) == Get(nodes, source + q)
    ensures AfterCopy(WithDirs(nodes, entry), source, entry, source + q)
         == Get(WithDirs(nodes, entry), source + q) == Get(nodes, source + q)
    ensures Get(WithDirs(nodes, entry), entry + q) == if q == [] then Some(Dir) else Get(nodes, entry + q)
  {
    WithDirsGet(nodes, entry);
    ApartBelow(source, entry, source + q);
    PrefixApart(source, entry, q);
    NoSuffix(source);
    NoSuffix(entry);
    assert Suffix(entry + q, entry) == q;
    assert entry + q <= entry <==> q == [];
    TreeGet(nodes, source, q);
    TreeGet(nodes, entry, q);
  }

  lemma {:induction false} PopulatedAt(nodes: Nodes, now: Nodes, source: Path, entry: Path, q: Path)
    requires Repeatable(nodes, source, entry) && Populated(nodes, now, source, entry)
    ensures Get(now, entry + q) == if q == P.MARKER then Some(File([])) else Get(nodes, source + q)
    ensures Get(now, source + q) == Get(nodes, source + q)
  {
    CopyAt(nodes, source, entry, q);
    MarkerAt(source, entry, q);
    assert Get(now, entry + q) ==
      if entry + q == entry + P.MARKER then Some(File([]))
      else AfterCopy(WithDirs(nodes, entry), source, entry, entry + q);
    assert Get(now, source + q) == AfterCopy(WithDirs(nodes, entry), source, entry, source + q);
  }

  lemma {:induction false} MarkerAt(source: Path, entry: Path, q: Path)
    requires Apart(source, entry)
    ensures entry + q == entry + P.MARKER <==> q == P.MARKER
    ensures source + q != entry + P.MARKER
  {
    assert Suffix(entry + q, entry) == q && Suffix(entry + P.MARKER, entry) == P.MARKER;
    ApartBelow(source, entry, source + q);
    assert entry <= entry + P.MARKER;
  }

  /** Populating an absent or unfinished entry makes it the packed source and leaves the source alone. */
  lemma {:induction false} PopulatedIsPacked(nodes: Nodes, now: Nodes, source: Path, entry: Path)
    requires Repeatable(nodes, source, entry) && Populated(nodes, now, source, entry)
    ensures Tree(now, entry) == P.Packed(Tree(nodes, source))
    ensures Tree(now, source) == Tree(nodes, source)
  {
    forall q
      ensures Get(Tree(now, entry), q) == Get(P.Packed(Tree(nodes, source)), q)
      ensures Get(Tree(now, source), q) == Get(Tree(nodes, source), q)
    {
      PopulatedAt(nodes, now, source, entry, q);
      TreeGet(now, entry, q);
      TreeGet(now, source, q);
      TreeGet(nodes, source, q);
    }
    SameTree(Tree(now, entry), P.Packed(Tree(nodes, source)));
    SameTree(Tree(now, source), Tree(nodes, source));
  }

  /** However far a failed population came, the entry is unfinished and the next attempt may start from it. */
  lemma {:induction false} FailureStaysRepeatable(nodes: Nodes, now: Nodes, source: Path, entry: Path)
    requires Repeatable(nodes, source, entry) && WellFormed(now)
    requires StoppedAt(nodes, now, source, entry)
    ensures Tree(now, source) == Tree(nodes, source)
    ensures Repeatable(now, source, entry)
  {
    forall q
      ensures Get(Tree(now, source), q) == Get(Tree(nodes, source), q)
      ensures q in Tree(now, entry) ==>
        || Get(Tree(now, entry), q) == Get(Tree(nodes, source), q)
        || Get(Tree(now, entry), q) == Get(Tree(nodes, entry), q)
    {
      CopyAt(nodes, source, entry, q);
      TreeGet(now, source, q);
      TreeGet(nodes, source, q);
      TreeGet(now, entry, q);
      TreeGet(nodes, entry, q);
      NoSuffix(source);
      NoSuffix(entry);
    }
    SameTree(Tree(now, source), Tree(nodes, source));
    NoSuffix(source);
    TreeGet(nodes, source, []);
    TreeGet(now, source, []);
    TreeGet(now, entry, P.MARKER);
    TreeGet(nodes, entry, P.MARKER);
    StillPartial(Tree(nodes, source), Tree(nodes, entry), Tree(now, entry));
  }

  lemma {:induction false} StillPartial(source: Nodes, before: Nodes, after: Nodes)
    requires P.Partial(source, before) && P.MARKER !in after
    requires forall q :: q in after ==> Get(after, q) == Get(source, q) || Get(after, q) == Get(before, q)
    ensures P.Partial(source, after)
  {
    forall q | q in after
      ensures q in source && (after[q] == source[q] || (after[q].File? && source[q].File?))
    {
      assert Get(after, q) == Get(source, q) || Get(after, q) == Get(before, q);
    }
  }

  /** Over an unfinished entry a population is stopped exactly by a link that is already there. */
  lemma {:induction false} OnlyLinksBlock(nodes: Nodes, source: Path, entry: Path)
    requires Repeatable(nodes, source, entry)
    ensures Conflict(WithDirs(nodes, entry), source, entry) <==>
      exists q :: q in Tree(nodes, entry) && Get(Tree(nodes, source), q).Some? && Tree(nodes, source)[q].Link?
  {
    var all := WithDirs(nodes, entry);
    forall q
      ensures Blocked(all, source, entry, q) <==>
        q in Tree(nodes, entry) && Get(Tree(nodes, source), q).Some? && Tree(nodes, source)[q].Link?
    {
      CopyAt(nodes, source, entry, q);
      TreeGet(nodes, source, q);
      TreeGet(nodes, entry, q);
      NoSuffix(source);
      assert Get(all, source + q) == Get(Tree(nodes, source), q);
      assert q != [] ==> Get(all, entry + q) == Get(Tree(nodes, entry), q);
    }
  }

  /** Installing a complete entry into an absent directory gives the reader the packed source. */
  lemma {:induction false} InstalledIsPacked(nodes: Nodes, now: Nodes, source: Nodes, entry: Path, target: Path)
    requires WellFormed(nodes) && Get(nodes, entry) == Some(Dir) && Apart(entry, target) && target !in nodes
    requires Tree(nodes, entry) == P.Packed(source) && Installed(nodes, now, entry, target)
    ensures Tree(now, target) == P.Packed(source)
  {
    forall q
      ensures Get(Tree(now, target), q) == Get(Tree(nodes, entry), q)
    {
      TreeGet(now, target, q);
      TreeGet(nodes, entry, q);
      AbsentBelow(nodes, target, q);
      NoSuffix(entry);
      TargetHolds(nodes, now, entry, target, q);
    }
    SameTree(Tree(now, target), Tree(nodes, entry));
  }
}
