/** A file system as a map from paths to nodes, with the few calls the project makes. */
module Disk {
  import opened Wrappers

  type Byte = b: int | 0 <= b < 256
  type Name = string
  type Path = seq<Name>

  datatype Node = File(bytes: seq<Byte>) | Link(target: string) | Dir

  type Nodes = map<Path, Node>

  function Get(nodes: Nodes, p: Path): Option<Node> {
    if p in nodes then Some(nodes[p]) else None
  }

  function Parent(p: Path): Path
    requires p != []
  {
    p[..|p| - 1]
  }

  /** The root is a directory and everything else stands in a directory. */
  ghost predicate WellFormed(nodes: Nodes) {
    && Get(nodes, []) == Some(Dir)
    && forall p {:trigger Parent(p)} :: p in nodes && p != [] ==> Get(nodes, Parent(p)) == Some(Dir)
  }

  function Below(nodes: Nodes, p: Path): set<Path> {
    set k | k in nodes && p <= k
  }

  function Children(nodes: Nodes, p: Path): set<Name> {
    set k | k in nodes && p <= k && |k| == |p| + 1 :: k[|p|]
  }

  lemma {:induction false} ChildrenExist(nodes: Nodes, p: Path, n: Name)
    ensures n in Children(nodes, p) <==> p + [n] in nodes
  {
    if p + [n] in nodes {
      var k := p + [n];
      assert p <= k && k[|p|] == n;
    }
    if n in Children(nodes, p) {
      var k :| k in nodes && p <= k && |k| == |p| + 1 && k[|p|] == n;
      assert k == p + [n];
    }
  }

  /** Every prefix of a present path is present, and a directory when proper. */
  lemma {:induction false} PrefixPresent(nodes: Nodes, p: Path, n: nat)
    requires WellFormed(nodes) && p in nodes && n <= |p|
    ensures p[..n] in nodes
    ensures n < |p| ==> nodes[p[..n]] == Dir
    decreases |p|
  {
    if n < |p| {
      PrefixPresent(nodes, Parent(p), n);
      assert Parent(p)[..n] == p[..n];
      if n == |p| - 1 {
        assert p[..n] == Parent(p);
      }
    } else {
      assert p[..n] == p;
    }
  }

  lemma {:induction false} BelowChildSmaller(nodes: Nodes, p: Path, n: Name)
    requires p in nodes
    ensures |Below(nodes, p + [n])| < |Below(nodes, p)|
  {
    forall k | k in Below(nodes, p + [n])
      ensures k in Below(nodes, p) - {p}
    {
      assert p <= p + [n] <= k;
    }
    SubsetSize(Below(nodes, p + [n]), Below(nodes, p) - {p});
    assert p in Below(nodes, p);
  }

  lemma {:induction false} SubsetSize<T>(a: set<T>, b: set<T>)
    requires a <= b
    ensures |a| <= |b|
    decreases |a|
  {
    if a != {} {
      var x :| x in a;
      SubsetSize(a - {x}, b - {x});
    }
  }

  lemma {:induction false} Comparable(a: Path, b: Path, k: Path)
    requires a <= k && b <= k
    ensures a <= b || b <= a
  {
    if |a| <= |b| {
      assert forall i :: 0 <= i < |a| ==> a[i] == k[i] == b[i];
    } else {
      assert forall i :: 0 <= i < |b| ==> b[i] == k[i] == a[i];
    }
  }

  lemma {:induction false} ChildPrefix(dir: Path, n: Name, k: Path)
    requires dir <= k && |k| > |dir|
    ensures dir + [n] <= k <==> k[|dir|] == n
  {
    assert k[..|dir| + 1] == dir + [k[|dir|]];
  }

  lemma {:induction false} AboveChild(dir: Path, n: Name, k: Path)
    requires dir + [n] <= k
    ensures dir < k && k[|dir|] == n
    ensures k == dir + [n] || dir + [n] < k
  {
    assert k[|dir|] == (dir + [n])[|dir|];
    assert |k| == |dir| + 1 ==> k == dir + [n];
  }

  lemma {:induction false} PrefixOfChild(k: Path, dir: Path, n: Name)
    ensures k <= dir + [n] <==> k <= dir || k == dir + [n]
  {
  }

  predicate NoFileOnTheWay(nodes: Nodes, p: Path) {
    forall i :: 0 <= i <= |p| && p[..i] in nodes ==> nodes[p[..i]] == Dir
  }

  /** The tree with every directory on the way to p. */
  function WithDirs(nodes: Nodes, p: Path): Nodes
    decreases |p|
  {
    if p == [] then nodes[p := Dir] else WithDirs(nodes, Parent(p))[p := Dir]
  }

  lemma {:induction false} WithDirsAt(nodes: Nodes, p: Path, k: Path)
    ensures Get(WithDirs(nodes, p), k) == if k <= p then Some(Dir) else Get(nodes, k)
    decreases |p|
  {
    if p != [] {
      WithDirsAt(nodes, Parent(p), k);
      assert k <= p <==> k <= Parent(p) || k == p;
    }
  }

  lemma {:induction false} WithDirsGet(nodes: Nodes, p: Path)
    ensures forall k :: Get(WithDirs(nodes, p), k) == if k <= p then Some(Dir) else Get(nodes, k)
  {
    forall k
      ensures Get(WithDirs(nodes, p), k) == if k <= p then Some(Dir) else Get(nodes, k)
    {
      WithDirsAt(nodes, p, k);
    }
  }

  lemma {:induction false} WithDirsWellFormed(nodes: Nodes, p: Path)
    requires WellFormed(nodes)
    ensures WellFormed(WithDirs(nodes, p))
    decreases |p|
  {
    if p != [] {
      WithDirsWellFormed(nodes, Parent(p));
      WithDirsAt(nodes, Parent(p), Parent(p));
      var mid := WithDirs(nodes, Parent(p));
      forall k | k in WithDirs(nodes, p) && k != []
        ensures Get(WithDirs(nodes, p), Parent(k)) == Some(Dir)
      {
        assert Get(mid, Parent(k)) == Some(Dir);
      }
    }
  }

  lemma {:induction false} PresentOnTheWay(nodes: Nodes, p: Path)
    requires WellFormed(nodes) && p in nodes
    ensures NoFileOnTheWay(nodes, p) <==> nodes[p] == Dir
    ensures nodes[p] == Dir ==> WithDirs(nodes, p) == nodes
    decreases |p|
  {
    assert p[..|p|] == p;
    forall i | 0 <= i < |p|
      ensures p[..i] in nodes && nodes[p[..i]] == Dir
    {
      PrefixPresent(nodes, p, i);
    }
    if p != [] {
      assert Get(nodes, Parent(p)) == Some(Dir);
      PresentOnTheWay(nodes, Parent(p));
    }
  }

  lemma {:induction false} AbsentOnTheWay(nodes: Nodes, p: Path)
    requires WellFormed(nodes) && p !in nodes
    ensures p != [] && (NoFileOnTheWay(nodes, p) <==> NoFileOnTheWay(nodes, Parent(p)))
  {
    assert p[..|p|] == p;
    assert forall i :: 0 <= i < |p| ==> Parent(p)[..i] == p[..i];
  }

  // ---------- symbolic links on the way ----------

  /** Where a link standing at a path leads, given its text. */
  type Follow = (Path, string) -> Path

  const MAX_LINKS: nat := 40

  /** Where the system arrives when it looks p up and follows every link, the last one included, and how many
  links it may still follow.  A link that leads nowhere, or one too many, is an error. */
  function Walk(nodes: Nodes, follow: Follow, p: Path, links: nat): (r: Option<(Path, nat)>)
    ensures r.Some? ==> r.value.1 <= links
    decreases links, |p|
  {
    if p == [] then Some(([], links))
    else
      match Walk(nodes, follow, Parent(p), links)
      case None => None
      case Some((dir, left)) =>
        var here := dir + [p[|p| - 1]];
        if here !in nodes || !nodes[here].Link? then Some((here, left))
        else if left == 0 then None
        else
          var end := Walk(nodes, follow, follow(here, nodes[here].target), left - 1);
          if end.Some? && end.value.0 in nodes then end else None
  }

  function Resolve(nodes: Nodes, follow: Follow, p: Path): Option<Path> {
    match Walk(nodes, follow, p, MAX_LINKS)
    case None => None
    case Some((q, _)) => Some(q)
  }

  /** A path with no link on it. */
  predicate Physical(nodes: Nodes, p: Path) {
    forall i :: 0 <= i <= |p| && p[..i] in nodes ==> !nodes[p[..i]].Link?
  }

  lemma {:induction false} PhysicalChild(nodes: Nodes, p: Path)
    requires p != []
    ensures Physical(nodes, p) <==> Physical(nodes, Parent(p)) && (p in nodes ==> !nodes[p].Link?)
  {
    assert p[..|p|] == p;
    assert forall i :: 0 <= i < |p| ==> Parent(p)[..i] == p[..i];
  }

  /** What a look-up arrives at has no link on it, and is found again as it is. */
  lemma {:induction false} WalkIsPhysical(nodes: Nodes, follow: Follow, p: Path, links: nat)
    requires WellFormed(nodes) && Walk(nodes, follow, p, links).Some?
    ensures Physical(nodes, Walk(nodes, follow, p, links).value.0)
    decreases links, |p|
  {
    if p != [] {
      WalkIsPhysical(nodes, follow, Parent(p), links);
      var (dir, left) := Walk(nodes, follow, Parent(p), links).value;
      var here := dir + [p[|p| - 1]];
      assert Parent(here) == dir;
      if here in nodes && nodes[here].Link? {
        WalkIsPhysical(nodes, follow, follow(here, nodes[here].target), left - 1);
      } else {
        PhysicalChild(nodes, here);
      }
    }
  }

  lemma {:induction false} PhysicalStays(nodes: Nodes, follow: Follow, p: Path, links: nat)
    requires Physical(nodes, p)
    ensures Walk(nodes, follow, p, links) == Some((p, links))
    decreases |p|
  {
    if p != [] {
      PhysicalChild(nodes, p);
      PhysicalStays(nodes, follow, Parent(p), links);
      assert Parent(p) + [p[|p| - 1]] == p;
    }
  }

  lemma {:induction false} DirIsPhysical(nodes: Nodes, p: Path)
    requires WellFormed(nodes) && p in nodes && !nodes[p].Link?
    ensures Physical(nodes, p)
  {
    assert p[..|p|] == p;
    forall i | 0 <= i < |p|
      ensures p[..i] in nodes && nodes[p[..i]] == Dir
    {
      PrefixPresent(nodes, p, i);
    }
  }

  // ---------- what looking up means ----------

  /** The first link on a path stands at its first i names. */
  predicate FirstLink(nodes: Nodes, p: Path, i: nat) {
    i <= |p| && p[..i] in nodes && nodes[p[..i]].Link?
    && forall j :: 0 <= j < i && p[..j] in nodes ==> !nodes[p[..j]].Link?
  }

  lemma {:induction false} HasFirstLink(nodes: Nodes, p: Path) returns (i: nat)
    requires !Physical(nodes, p)
    ensures FirstLink(nodes, p, i)
  {
    i := 0;
    while p[..i] !in nodes || !nodes[p[..i]].Link?
      invariant i <= |p| && forall j :: 0 <= j < i && p[..j] in nodes ==> !nodes[p[..j]].Link?
      invariant exists j :: i <= j <= |p| && p[..j] in nodes && nodes[p[..j]].Link?
      decreases |p| - i
    {
      i := i + 1;
    }
  }

  /** One step of a look-up: the first link on the path gives way to the path it points at. */
  function Followed(nodes: Nodes, follow: Follow, p: Path, i: nat): Path
    requires FirstLink(nodes, p, i)
  {
    follow(p[..i], nodes[p[..i]].target) + p[i..]
  }

  /** In n steps p leads to q, which has no link on it; what each link points at leads to something. */
  ghost predicate Leads(nodes: Nodes, follow: Follow, p: Path, q: Path, n: nat)
    decreases n, 1
  {
    if Physical(nodes, p) then p == q && n == 0
    else n > 0 && exists i: nat :: FirstLink(nodes, p, i) && LeadsPast(nodes, follow, p, i, q, n)
  }

  ghost predicate LeadsPast(nodes: Nodes, follow: Follow, p: Path, i: nat, q: Path, n: nat)
    requires FirstLink(nodes, p, i) && n > 0
    decreases n, 0
  {
    && Leads(nodes, follow, Followed(nodes, follow, p, i), q, n - 1)
    && exists end, m: nat ::
         m < n && end in nodes && Leads(nodes, follow, follow(p[..i], nodes[p[..i]].target), end, m)
  }

  /** Looking up a longer path starts where the shorter one leads. */
  lemma {:induction false} WalkOn(nodes: Nodes, follow: Follow, a: Path, b: Path, links: nat)
    requires WellFormed(nodes)
    ensures match Walk(nodes, follow, a, links)
      case None => Walk(nodes, follow, a + b, links).None?
      case Some((dir, left)) => Walk(nodes, follow, a + b, links) == Walk(nodes, follow, dir + b, left)
    decreases |b|
  {
    if b == [] {
      assert a + b == a;
      if Walk(nodes, follow, a, links).Some? {
        var (dir, left) := Walk(nodes, follow, a, links).value;
        assert dir + b == dir;
        WalkIsPhysical(nodes, follow, a, links);
        PhysicalStays(nodes, follow, dir, left);
      }
    } else {
      var init, last := b[..|b| - 1], b[|b| - 1];
      WalkOn(nodes, follow, a, init, links);
      assert Parent(a + b) == a + init && (a + b)[|a + b| - 1] == last;
      if Walk(nodes, follow, a, links).Some? {
        var dir := Walk(nodes, follow, a, links).value.0;
        assert Parent(dir + b) == dir + init && (dir + b)[|dir + b| - 1] == last;
      }
    }
  }

  /** A look-up goes on from where the first link points, if that leads to something and a link may be followed. */
  lemma {:induction false} WalkFollows(nodes: Nodes, follow: Follow, p: Path, i: nat, links: nat)
    requires WellFormed(nodes) && FirstLink(nodes, p, i)
    ensures links == 0 ==> Walk(nodes, follow, p, links).None?
    ensures links > 0 ==>
      var end := Walk(nodes, follow, follow(p[..i], nodes[p[..i]].target), links - 1);
      Walk(nodes, follow, p, links) ==
        if end.Some? && end.value.0 in nodes then Walk(nodes, follow, Followed(nodes, follow, p, i), links - 1)
        else None
  {
    var head := p[..i];
    LinkAtEnd(nodes, follow, p, i, links);
    assert p == head + p[i..];
    WalkOn(nodes, follow, head, p[i..], links);
    if links > 0 {
      WalkOn(nodes, follow, follow(head, nodes[head].target), p[i..], links - 1);
    }
  }

  lemma {:induction false} LinkAtEnd(nodes: Nodes, follow: Follow, p: Path, i: nat, links: nat)
    requires WellFormed(nodes) && FirstLink(nodes, p, i)
    ensures links == 0 ==> Walk(nodes, follow, p[..i], links).None?
    ensures links > 0 ==>
      var end := Walk(nodes, follow, follow(p[..i], nodes[p[..i]].target), links - 1);
      Walk(nodes, follow, p[..i], links) == if end.Some? && end.value.0 in nodes then end else None
  {
    var head := p[..i];
    assert i > 0;
    assert forall j :: 0 <= j < i ==> Parent(head)[..j] == p[..j];
    assert Parent(head)[..i - 1] == Parent(head);
    assert Physical(nodes, Parent(head));
    PhysicalStays(nodes, follow, Parent(head), links);
    assert Parent(head) + [head[i - 1]] == head;
  }

  lemma {:induction false} FirstLinkIsOne(nodes: Nodes, p: Path, i: nat, j: nat)
    requires FirstLink(nodes, p, i) && FirstLink(nodes, p, j)
    ensures i == j && !Physical(nodes, p)
  {
  }

  lemma {:induction false} LeadsOn(nodes: Nodes, follow: Follow, p: Path, i: nat, q: Path, n: nat)
    requires FirstLink(nodes, p, i)
    ensures Leads(nodes, follow, p, q, n) <==> n > 0 && LeadsPast(nodes, follow, p, i, q, n)
  {
    FirstLinkIsOne(nodes, p, i, i);
    if Leads(nodes, follow, p, q, n) {
      var j: nat :| FirstLink(nodes, p, j) && LeadsPast(nodes, follow, p, j, q, n);
      FirstLinkIsOne(nodes, p, i, j);
    }
  }

  lemma {:induction false} LeadsBy(
      nodes: Nodes, follow: Follow, p: Path, i: nat, q: Path, n: nat, end: Path, m: nat)
    requires FirstLink(nodes, p, i) && m < n && end in nodes
    requires Leads(nodes, follow, follow(p[..i], nodes[p[..i]].target), end, m)
    requires Leads(nodes, follow, Followed(nodes, follow, p, i), q, n - 1)
    ensures Leads(nodes, follow, p, q, n)
  {
    assert LeadsPast(nodes, follow, p, i, q, n);
    LeadsOn(nodes, follow, p, i, q, n);
  }

  lemma {:induction false} WalkThenLeads(
      nodes: Nodes, follow: Follow, p: Path, links: nat, q: Path, left: nat)
    requires WellFormed(nodes) && Walk(nodes, follow, p, links) == Some((q, left))
    ensures left <= links && Leads(nodes, follow, p, q, links - left)
    decreases links
  {
    if Physical(nodes, p) {
      PhysicalStays(nodes, follow, p, links);
    } else {
      var i := HasFirstLink(nodes, p);
      var end, rest := WalkParts(nodes, follow, p, i, links);
      WalkThenLeads(nodes, follow, Followed(nodes, follow, p, i), links - 1, q, left);
      WalkThenLeads(nodes, follow, follow(p[..i], nodes[p[..i]].target), links - 1, end, rest);
      LeadsBy(nodes, follow, p, i, q, links - left, end, links - 1 - rest);
    }
  }

  lemma {:induction false} WalkParts(nodes: Nodes, follow: Follow, p: Path, i: nat, links: nat)
      returns (end: Path, rest: nat)
    requires WellFormed(nodes) && FirstLink(nodes, p, i) && Walk(nodes, follow, p, links).Some?
    ensures links > 0 && end in nodes
    ensures Walk(nodes, follow, follow(p[..i], nodes[p[..i]].target), links - 1) == Some((end, rest))
    ensures Walk(nodes, follow, Followed(nodes, follow, p, i), links - 1) == Walk(nodes, follow, p, links)
    ensures Walk(nodes, follow, p, links).value.1 <= rest < links
  {
    WalkFollows(nodes, follow, p, i, links);
    var t := follow(p[..i], nodes[p[..i]].target);
    end, rest := Walk(nodes, follow, t, links - 1).value.0, Walk(nodes, follow, t, links - 1).value.1;
    WalkOn(nodes, follow, t, p[i..], links - 1);
  }

  lemma {:induction false} LeadsThenWalk(nodes: Nodes, follow: Follow, p: Path, q: Path, n: nat, links: nat)
    requires WellFormed(nodes) && n <= links && Leads(nodes, follow, p, q, n)
    ensures Walk(nodes, follow, p, links) == Some((q, links - n))
    decreases n
  {
    if Physical(nodes, p) {
      PhysicalStays(nodes, follow, p, links);
    } else {
      var i := HasFirstLink(nodes, p);
      LeadsOn(nodes, follow, p, i, q, n);
      WalkFollows(nodes, follow, p, i, links);
      var t := follow(p[..i], nodes[p[..i]].target);
      var end, m: nat :| m < n && end in nodes && Leads(nodes, follow, t, end, m);
      LeadsThenWalk(nodes, follow, t, end, m, links - 1);
      LeadsThenWalk(nodes, follow, Followed(nodes, follow, p, i), q, n - 1, links - 1);
    }
  }

  /** A path is looked up to q, with so many links left to follow, if and only if it leads there in the difference. */
  lemma {:induction false} WalkIffLeads(nodes: Nodes, follow: Follow, p: Path, links: nat, q: Path, left: nat)
    requires WellFormed(nodes)
    ensures Walk(nodes, follow, p, links) == Some((q, left))
      <==> left <= links && Leads(nodes, follow, p, q, links - left)
  {
    if Walk(nodes, follow, p, links) == Some((q, left)) {
      WalkThenLeads(nodes, follow, p, links, q, left);
    }
    if left <= links && Leads(nodes, follow, p, q, links - left) {
      LeadsThenWalk(nodes, follow, p, q, links - left, links);
    }
  }

  /** The path leads to q through at most 40 links, as many as the system follows. */
  ghost predicate Reached(nodes: Nodes, follow: Follow, p: Path, q: Path) {
    exists n: nat :: n <= 40 && Leads(nodes, follow, p, q, n)
  }

  lemma {:induction false} ResolveIffReached(nodes: Nodes, follow: Follow, p: Path, q: Path)
    requires WellFormed(nodes)
    ensures Resolve(nodes, follow, p) == Some(q) <==> Reached(nodes, follow, p, q)
  {
    if Resolve(nodes, follow, p) == Some(q) {
      WalkThenLeads(nodes, follow, p, MAX_LINKS, q, Walk(nodes, follow, p, MAX_LINKS).value.1);
    }
    if Reached(nodes, follow, p, q) {
      var n: nat :| n <= 40 && Leads(nodes, follow, p, q, n);
      LeadsThenWalk(nodes, follow, p, q, n, MAX_LINKS);
    }
  }

  /** So with one link on the way, to a directory without links, the rest of the path is found under what the link
  points at. */
  lemma {:induction false} LinkLeadsToTarget(nodes: Nodes, follow: Follow, p: Path, i: nat)
    requires WellFormed(nodes) && FirstLink(nodes, p, i)
    requires var t := follow(p[..i], nodes[p[..i]].target);
      t in nodes && Physical(nodes, t) && Physical(nodes, t + p[i..])
    ensures Resolve(nodes, follow, p) == Some(follow(p[..i], nodes[p[..i]].target) + p[i..])
  {
    var t := follow(p[..i], nodes[p[..i]].target);
    WalkFollows(nodes, follow, p, i, MAX_LINKS);
    PhysicalStays(nodes, follow, t, MAX_LINKS - 1);
    PhysicalStays(nodes, follow, t + p[i..], MAX_LINKS - 1);
  }

  // ---------- look-ups in a changing tree ----------

  /** Nothing is taken away, links stay as they are and nothing else becomes one. */
  ghost predicate LinksStay(a: Nodes, b: Nodes) {
    forall k :: k in a ==> k in b && (a[k].Link? || b[k].Link? ==> a[k] == b[k])
  }

  /** A path that leads to something keeps leading there. */
  lemma {:induction false} WalkStays(a: Nodes, b: Nodes, follow: Follow, p: Path, links: nat)
    requires WellFormed(a) && LinksStay(a, b)
    requires Walk(a, follow, p, links).Some? && Walk(a, follow, p, links).value.0 in a
    ensures Walk(b, follow, p, links) == Walk(a, follow, p, links)
    decreases links, |p|
  {
    if p != [] {
      var (dir, left) := Walk(a, follow, Parent(p), links).value;
      var here := dir + [p[|p| - 1]];
      assert Parent(here) == dir && here in a;
      WalkStays(a, b, follow, Parent(p), links);
      if a[here].Link? {
        WalkStays(a, b, follow, follow(here, a[here].target), left - 1);
      }
    }
  }

  /** Creating the directories that were missing does not change where a path leads. */
  lemma {:induction false} WalkFindsNewDirs(nodes: Nodes, follow: Follow, p: Path, links: nat, q: Path)
    requires NoFileOnTheWay(nodes, q) && Walk(nodes, follow, p, links).Some?
    ensures Walk(WithDirs(nodes, q), follow, p, links) == Walk(nodes, follow, p, links)
    decreases links, |p|
  {
    if p != [] {
      WalkFindsNewDirs(nodes, follow, Parent(p), links, q);
      var (dir, left) := Walk(nodes, follow, Parent(p), links).value;
      var here := dir + [p[|p| - 1]];
      WithDirsAt(nodes, q, here);
      assert here <= q ==> here == q[..|here|];
      if here in nodes && nodes[here].Link? {
        var there := follow(here, nodes[here].target);
        WalkFindsNewDirs(nodes, follow, there, left - 1, q);
        WithDirsAt(nodes, q, Walk(nodes, follow, there, left - 1).value.0);
      }
    }
  }

  class FileSystem {
    const follow: Follow
    var nodes: Nodes

    constructor (follow: Follow, nodes: Nodes)
      ensures this.follow == follow && this.nodes == nodes
    {
      this.follow, this.nodes := follow, nodes;
    }

    /** Creates the missing directories on the way to p, links followed.  It fails, with nothing created, when a
    file is on the way or a link leads nowhere. */
    method CreateDirAll(p: Path) returns (ok: bool)
      requires WellFormed(nodes)
      modifies this`nodes
      ensures WellFormed(nodes)
      ensures var end := Resolve(old(nodes), follow, p);
        && (ok <==> end.Some? && NoFileOnTheWay(old(nodes), end.value))
        && nodes == (if ok then WithDirs(old(nodes), end.value) else old(nodes))
    {
      var end := Resolve(nodes, follow, p);
      if end.None? {
        return false;
      }
      WalkIsPhysical(nodes, follow, p, MAX_LINKS);
      ok := CreateDirs(end.value);
    }

    /** The same for a path without links, from the first missing directory down. */
    method CreateDirs(p: Path) returns (ok: bool)
      requires WellFormed(nodes) && Physical(nodes, p)
      modifies this`nodes
      ensures WellFormed(nodes)
      ensures ok <==> NoFileOnTheWay(old(nodes), p)
      ensures nodes == if ok then WithDirs(old(nodes), p) else old(nodes)
      decreases |p|
    {
      if p in nodes {
        PresentOnTheWay(nodes, p);
        return nodes[p] == Dir;
      }
      AbsentOnTheWay(nodes, p);
      PhysicalChild(nodes, p);
      ok := CreateDirs(Parent(p));
      if ok {
        WithDirsWellFormed(old(nodes), p);
        nodes := nodes[p := Dir];
      }
    }

    /** Writes a regular file, replacing an earlier one. */
    method WriteFile(p: Path, bytes: seq<Byte>) returns (ok: bool)
      requires WellFormed(nodes) && p != [] && Physical(nodes, p)
      modifies this`nodes
      ensures WellFormed(nodes)
      ensures ok <==> Get(old(nodes), Parent(p)) == Some(Dir) && Get(old(nodes), p) != Some(Dir)
      ensures nodes == if ok then old(nodes)[p := File(bytes)] else old(nodes)
    {
      if Get(nodes, Parent(p)) != Some(Dir) || Get(nodes, p) == Some(Dir) {
        return false;
      }
      nodes := nodes[p := File(bytes)];
      ok := true;
    }

    /** Creates a symbolic link; anything already there makes it fail. */
    method Symlink(p: Path, target: string) returns (ok: bool)
      requires WellFormed(nodes) && p != [] && Physical(nodes, Parent(p))
      modifies this`nodes
      ensures WellFormed(nodes)
      ensures ok <==> Get(old(nodes), Parent(p)) == Some(Dir) && p !in old(nodes)
      ensures nodes == if ok then old(nodes)[p := Link(target)] else old(nodes)
    {
      if Get(nodes, Parent(p)) != Some(Dir) || p in nodes {
        return false;
      }
      nodes := nodes[p := Link(target)];
      ok := true;
    }
  }
}
