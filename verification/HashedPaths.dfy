/** What the hashed stream is made of, said without recursion over the tree: one list of all paths below the directory,
and what each of them contributes. */
module HashedPaths {
  import opened Wrappers
  import opened Disk
  import opened TreeHash

  /** The text of a path, and the contents if it is a file. */
  function Item(nodes: Nodes, k: Path, text: Text): seq<Byte> {
    text(k) + match Get(nodes, k) { case Some(File(bytes)) => bytes case _ => [] }
  }

  function Items(nodes: Nodes, list: seq<Path>, text: Text): seq<Byte> {
    if list == [] then [] else Items(nodes, list[..|list| - 1], text) + Item(nodes, list[|list| - 1], text)
  }

  lemma {:induction false} ItemsAppend(nodes: Nodes, a: seq<Path>, b: seq<Path>, text: Text)
    ensures Items(nodes, a + b, text) == Items(nodes, a, text) + Items(nodes, b, text)
    decreases |b|
  {
    if b == [] {
      assert a + b == a;
    } else {
      assert (a + b)[..|a + b| - 1] == a + b[..|b| - 1];
      ItemsAppend(nodes, a, b[..|b| - 1], text);
    }
  }

  // ---------- the list ----------

  ghost predicate Distinct(list: seq<Path>) {
    forall i, j :: 0 <= i < j < |list| ==> list[i] != list[j]
  }

  /** From position i to j everything is below the path at i. */
  ghost predicate AllBelow(list: seq<Path>, i: nat, j: nat)
    requires i < |list| && j < |list|
  {
    forall m :: i < m <= j ==> list[i] < list[m]
  }

  /** A path comes before all that is below it, with nothing else in between. */
  ghost predicate Nested(list: seq<Path>) {
    forall i, j :: 0 <= i < |list| && 0 <= j < |list| && list[i] < list[j] ==> i < j && AllBelow(list, i, j)
  }

  predicate Siblings(a: Path, b: Path) {
    a != [] && b != [] && Parent(a) == Parent(b)
  }

  /** The entries of one directory are in key order. */
  ghost predicate SiblingsSorted(list: seq<Path>, key: Key) {
    forall i, j :: 0 <= i < j < |list| && Siblings(list[i], list[j]) ==>
      LexLe(key(list[i][|list[i]| - 1]), key(list[j][|list[j]| - 1]))
  }

  ghost predicate Ordered(list: seq<Path>, key: Key) {
    Distinct(list) && Nested(list) && SiblingsSorted(list, key)
  }

  lemma {:induction false} NestedOnTop(top: Path, list: seq<Path>)
    requires Nested(list) && forall i :: 0 <= i < |list| ==> top < list[i]
    ensures Nested([top] + list)
  {
    var all := [top] + list;
    assert forall i :: 0 < i < |all| ==> all[i] == list[i - 1] && top < all[i];
    forall i, j | 0 <= i < |all| && 0 <= j < |all| && all[i] < all[j]
      ensures i < j && AllBelow(all, i, j)
    {
      if i > 0 && j > 0 {
        assert list[i - 1] < list[j - 1];
        assert AllBelow(list, i - 1, j - 1);
        forall m | i < m <= j
          ensures all[i] < all[m]
        {
          assert list[i - 1] < list[m - 1];
        }
      }
    }
  }

  lemma {:induction false} SortedOnTop(top: Path, list: seq<Path>, key: Key)
    requires SiblingsSorted(list, key) && forall i :: 0 <= i < |list| ==> top < list[i]
    ensures SiblingsSorted([top] + list, key)
  {
    var all := [top] + list;
    assert forall i :: 0 < i < |all| ==> all[i] == list[i - 1] && top < all[i];
    forall i, j | 0 <= i < j < |all| && Siblings(all[i], all[j])
      ensures LexLe(key(all[i][|all[i]| - 1]), key(all[j][|all[j]| - 1]))
    {
      if i > 0 {
        assert Siblings(list[i - 1], list[j - 1]);
      }
    }
  }

  lemma {:induction false} PutOnTop(top: Path, list: seq<Path>, key: Key)
    requires Ordered(list, key) && forall k :: k in list ==> top < k
    ensures Ordered([top] + list, key)
  {
    assert forall i :: 0 <= i < |list| ==> list[i] in list;
    NestedOnTop(top, list);
    SortedOnTop(top, list, key);
  }

  lemma {:induction false} SameParent(a: Path, b: Path)
    requires Siblings(a, b)
    ensures |a| == |b| && forall m :: 0 <= m < |a| - 1 ==> a[m] == b[m]
  {
    assert forall m :: 0 <= m < |a| - 1 ==> Parent(a)[m] == a[m] && Parent(b)[m] == b[m];
  }

  /** Two lists from different entries of rel do not meet. */
  lemma {:induction false} Apart(rel: Path, a: Path, b: Path)
    requires rel < a && rel < b && a[|rel|] != b[|rel|]
    ensures a != b && !(a < b) && !(b < a)
    ensures Siblings(a, b) ==> a[|a| - 1] == a[|rel|] && b[|b| - 1] == b[|rel|]
  {
    if Siblings(a, b) {
      SameParent(a, b);
    }
  }

  lemma {:induction false} PutAfter(rel: Path, a: seq<Path>, b: seq<Path>, n: Name, key: Key)
    requires Ordered(a, key) && Ordered(b, key)
    requires forall k :: k in a ==> rel < k && k[|rel|] != n && LexLe(key(k[|rel|]), key(n))
    requires forall k :: k in b ==> rel < k && k[|rel|] == n
    ensures Ordered(a + b, key)
  {
    forall i, j | 0 <= i < |a| && 0 <= j < |b|
      ensures Strangers(a[i], b[j], key)
    {
      assert a[i] in a && b[j] in b;
      Apart(rel, a[i], b[j]);
    }
    NestedAfter(a, b, key);
    SortedAfter(a, b, key);
    assert forall i, j :: 0 <= i < |a| && 0 <= j < |b| ==> Strangers(a[i], b[j], key);
  }

  /** Different, neither below the other, and in key order if they stand in the same directory. */
  ghost predicate Strangers(x: Path, y: Path, key: Key) {
    && x != y && !(x < y) && !(y < x)
    && (Siblings(x, y) ==> LexLe(key(x[|x| - 1]), key(y[|y| - 1])))
  }

  lemma {:induction false} NestedAfter(a: seq<Path>, b: seq<Path>, key: Key)
    requires Nested(a) && Nested(b)
    requires forall i, j :: 0 <= i < |a| && 0 <= j < |b| ==> Strangers(a[i], b[j], key)
    ensures Nested(a + b)
  {
    var all := a + b;
    forall i, j | 0 <= i < |a| <= j < |all|
      ensures Strangers(all[i], all[j], key)
    {
      assert all[i] == a[i] && all[j] == b[j - |a|];
    }
    forall i, j | 0 <= i < |all| && 0 <= j < |all| && all[i] < all[j]
      ensures i < j && AllBelow(all, i, j)
    {
      if i < |a| && j < |a| {
        assert a[i] < a[j] && AllBelow(a, i, j);
      } else if i >= |a| && j >= |a| {
        assert b[i - |a|] < b[j - |a|] && AllBelow(b, i - |a|, j - |a|);
        forall m | i < m <= j
          ensures all[i] < all[m]
        {
          assert b[i - |a|] < b[m - |a|];
        }
      }
    }
  }

  lemma {:induction false} SortedAfter(a: seq<Path>, b: seq<Path>, key: Key)
    requires SiblingsSorted(a, key) && SiblingsSorted(b, key)
    requires forall i, j :: 0 <= i < |a| && 0 <= j < |b| ==> Strangers(a[i], b[j], key)
    ensures SiblingsSorted(a + b, key)
  {
    var all := a + b;
    forall i, j | 0 <= i < j < |all| && Siblings(all[i], all[j])
      ensures LexLe(key(all[i][|all[i]| - 1]), key(all[j][|all[j]| - 1]))
    {
      if j < |a| {
        assert Siblings(a[i], a[j]);
      } else if i >= |a| {
        assert Siblings(b[i - |a|], b[j - |a|]);
      } else {
        assert Strangers(a[i], b[j - |a|], key);
      }
    }
  }

  // ---------- the list of a tree ----------

  ghost predicate Lists(nodes: Nodes, rel: Path, names: seq<Name>, list: seq<Path>) {
    forall k :: k in list <==> k in nodes && rel < k && k[|rel|] in names
  }

  ghost predicate ListsEntries(
      nodes: Nodes, rel: Path, names: seq<Name>, key: Key, text: Text, list: seq<Path>)
    requires rel in nodes
  {
    && Ordered(list, key) && Lists(nodes, rel, names, list)
    && Items(nodes, list, text) == EntriesStream(nodes, rel, names, key, text)
  }

  ghost predicate ListsEntry(nodes: Nodes, rel: Path, n: Name, key: Key, text: Text, list: seq<Path>)
    requires rel in nodes
  {
    && Ordered(list, key) && (forall k :: k in list <==> k in nodes && rel + [n] <= k)
    && Items(nodes, list, text) == EntryStream(nodes, rel, n, key, text)
  }

  ghost predicate ListsDir(nodes: Nodes, dir: Path, key: Key, text: Text, list: seq<Path>)
    requires dir in nodes
  {
    && Ordered(list, key) && (forall k :: k in list <==> k in nodes && dir < k)
    && Items(nodes, list, text) == CanonicalDir(nodes, dir, key, text)
  }

  predicate NamesFit(nodes: Nodes, rel: Path, names: seq<Name>, key: Key) {
    && Sorted(names, key)
    && (forall i, j :: 0 <= i < j < |names| ==> names[i] != names[j])
    && forall i :: 0 <= i < |names| ==> names[i] in Children(nodes, rel)
  }

  lemma {:induction false} ListEntries(nodes: Nodes, rel: Path, names: seq<Name>, key: Key, text: Text)
      returns (list: seq<Path>)
    requires WellFormed(nodes) && rel in nodes && NamesFit(nodes, rel, names, key)
    ensures ListsEntries(nodes, rel, names, key, text, list)
    decreases |Below(nodes, rel)|, 0, |names|
  {
    if names == [] {
      list := [];
    } else {
      var init, n := names[..|names| - 1], names[|names| - 1];
      var a := ListEntries(nodes, rel, init, key, text);
      BelowChildSmaller(nodes, rel, n);
      var b := ListEntry(nodes, rel, n, key, text);
      OneEntryMore(nodes, rel, names, key, text, a, b);
      list := a + b;
    }
  }

  lemma {:induction false} OneEntryMore(
      nodes: Nodes, rel: Path, names: seq<Name>, key: Key, text: Text, a: seq<Path>, b: seq<Path>)
    requires rel in nodes && names != [] && NamesFit(nodes, rel, names, key)
    requires ListsEntries(nodes, rel, names[..|names| - 1], key, text, a)
    requires ListsEntry(nodes, rel, names[|names| - 1], key, text, b)
    ensures ListsEntries(nodes, rel, names, key, text, a + b)
  {
    EntriesInOrder(nodes, rel, names, a, b, key);
    ItemsAppend(nodes, a, b, text);
  }

  lemma {:induction false} EntriesInOrder(
      nodes: Nodes, rel: Path, names: seq<Name>, a: seq<Path>, b: seq<Path>, key: Key)
    requires names != [] && NamesFit(nodes, rel, names, key) && Ordered(a, key) && Ordered(b, key)
    requires Lists(nodes, rel, names[..|names| - 1], a)
    requires forall k :: k in b <==> k in nodes && rel + [names[|names| - 1]] <= k
    ensures Ordered(a + b, key) && Lists(nodes, rel, names, a + b)
  {
    var init, n := names[..|names| - 1], names[|names| - 1];
    Fits(nodes, rel, names, a, b, key);
    PutAfter(rel, a, b, n, key);
    MoreNames(nodes, rel, init, n, a, b);
    assert names == init + [n];
  }

  lemma {:induction false} Fits(
      nodes: Nodes, rel: Path, names: seq<Name>, a: seq<Path>, b: seq<Path>, key: Key)
    requires names != [] && Sorted(names, key)
    requires forall i, j :: 0 <= i < j < |names| ==> names[i] != names[j]
    requires Lists(nodes, rel, names[..|names| - 1], a)
    requires forall k :: k in b <==> k in nodes && rel + [names[|names| - 1]] <= k
    ensures var n := names[|names| - 1];
      && (forall k :: k in a ==> rel < k && k[|rel|] != n && LexLe(key(k[|rel|]), key(n)))
      && (forall k :: k in b ==> rel < k && k[|rel|] == n)
  {
    var init, n := names[..|names| - 1], names[|names| - 1];
    forall k | k in a
      ensures rel < k && k[|rel|] != n && LexLe(key(k[|rel|]), key(n))
    {
      var i :| 0 <= i < |init| && init[i] == k[|rel|];
      assert names[i] == init[i];
    }
    forall k | k in b
      ensures rel < k && k[|rel|] == n
    {
      AboveChild(rel, n, k);
    }
  }

  lemma {:induction false} MoreNames(
      nodes: Nodes, rel: Path, init: seq<Name>, n: Name, a: seq<Path>, b: seq<Path>)
    requires Lists(nodes, rel, init, a) && forall k :: k in b <==> k in nodes && rel + [n] <= k
    ensures Lists(nodes, rel, init + [n], a + b)
  {
    forall k
      ensures k in a + b <==> k in nodes && rel < k && k[|rel|] in init + [n]
    {
      if rel < k {
        ChildPrefix(rel, n, k);
      } else if rel + [n] <= k {
        AboveChild(rel, n, k);
      }
    }
  }

  lemma {:induction false} ListEntry(nodes: Nodes, rel: Path, n: Name, key: Key, text: Text)
      returns (list: seq<Path>)
    requires WellFormed(nodes) && rel in nodes && n in Children(nodes, rel)
    ensures ListsEntry(nodes, rel, n, key, text, list)
    decreases |Below(nodes, rel + [n])|, 1, 0
  {
    var child := rel + [n];
    ChildrenExist(nodes, rel, n);
    if nodes[child] == Dir {
      BelowChildSmaller(nodes, rel, n);
      var sub := ListDir(nodes, child, key, text);
      list := [child] + sub;
      DirEntry(nodes, rel, n, key, text, sub);
    } else {
      list := [child];
      LeafEntry(nodes, rel, n, key, text);
    }
  }

  lemma {:induction false} DirEntry(nodes: Nodes, rel: Path, n: Name, key: Key, text: Text, sub: seq<Path>)
    requires rel in nodes && Get(nodes, rel + [n]) == Some(Dir) && ListsDir(nodes, rel + [n], key, text, sub)
    ensures ListsEntry(nodes, rel, n, key, text, [rel + [n]] + sub)
  {
    TopOfDir(nodes, rel + [n], sub, key);
    ItemsOnTop(nodes, rel + [n], sub, text);
    DirStream(nodes, rel, n, key, text);
  }

  lemma {:induction false} TopOfDir(nodes: Nodes, dir: Path, sub: seq<Path>, key: Key)
    requires dir in nodes && Ordered(sub, key) && forall k :: k in sub <==> k in nodes && dir < k
    ensures Ordered([dir] + sub, key) && forall k :: k in [dir] + sub <==> k in nodes && dir <= k
  {
    PutOnTop(dir, sub, key);
    forall k | k in nodes && dir <= k
      ensures k == dir || dir < k
    {
      assert |k| == |dir| ==> k == dir;
    }
    assert forall k :: k in [dir] + sub <==> k == dir || k in sub;
  }

  lemma {:induction false} DirStream(nodes: Nodes, rel: Path, n: Name, key: Key, text: Text)
    requires rel in nodes && Get(nodes, rel + [n]) == Some(Dir)
    ensures EntryStream(nodes, rel, n, key, text)
         == Item(nodes, rel + [n], text) + CanonicalDir(nodes, rel + [n], key, text)
  {
  }

  lemma {:induction false} LeafEntry(nodes: Nodes, rel: Path, n: Name, key: Key, text: Text)
    requires WellFormed(nodes) && rel in nodes && rel + [n] in nodes && nodes[rel + [n]] != Dir
    ensures ListsEntry(nodes, rel, n, key, text, [rel + [n]])
  {
    NothingBelow(nodes, rel + [n]);
    TopOfDir(nodes, rel + [n], [], key);
    ItemsOnTop(nodes, rel + [n], [], text);
    assert [rel + [n]] + [] == [rel + [n]];
  }

  lemma {:induction false} ItemsOnTop(nodes: Nodes, top: Path, list: seq<Path>, text: Text)
    ensures Items(nodes, [top] + list, text) == Item(nodes, top, text) + Items(nodes, list, text)
  {
    ItemsAppend(nodes, [top], list, text);
    assert [top][..0] == [];
    assert Items(nodes, [top], text) == [] + Item(nodes, top, text);
  }

  lemma {:induction false} NothingBelow(nodes: Nodes, p: Path)
    requires WellFormed(nodes) && p in nodes && nodes[p] != Dir
    ensures forall k :: k in nodes ==> !(p < k)
  {
    forall k | k in nodes && p < k
      ensures false
    {
      assert k[..|p|] == p;
      PrefixPresent(nodes, k, |p|);
    }
  }

  lemma {:induction false} ListDir(nodes: Nodes, dir: Path, key: Key, text: Text) returns (list: seq<Path>)
    requires WellFormed(nodes) && Get(nodes, dir) == Some(Dir)
    ensures ListsDir(nodes, dir, key, text, list)
    decreases |Below(nodes, dir)|, 0, |Children(nodes, dir)| + 1
  {
    var names := InOrder(Children(nodes, dir), key);
    InOrderSorted(Children(nodes, dir), key);
    EachOnce(names, Children(nodes, dir));
    assert NamesFit(nodes, dir, names, key) by {
      assert forall i :: 0 <= i < |names| ==> names[i] in names;
    }
    list := ListEntries(nodes, dir, names, key, text);
    AllNames(nodes, dir, names, list);
  }

  lemma {:induction false} AllNames(nodes: Nodes, dir: Path, names: seq<Name>, list: seq<Path>)
    requires WellFormed(nodes) && Lists(nodes, dir, names, list)
    requires forall n :: n in names <==> n in Children(nodes, dir)
    ensures forall k :: k in list <==> k in nodes && dir < k
  {
    forall k | k in nodes && dir < k
      ensures k[|dir|] in names
    {
      assert k[..|dir| + 1] == dir + [k[|dir|]];
      PrefixPresent(nodes, k, |dir| + 1);
      ChildrenExist(nodes, dir, k[|dir|]);
    }
  }

  lemma {:induction false} EachOnce(names: seq<Name>, all: set<Name>)
    requires TreeHash.Lists(names, all)
    ensures |names| == |all| && forall n :: n in names <==> n in all
    ensures forall i, j :: 0 <= i < j < |names| ==> names[i] != names[j]
    decreases |names|
  {
    assert |multiset(names)| == |names|;
    if names == [] {
      assert all == {};
    } else {
      ListsRest(names, all);
      EachOnce(names[1..], all - {names[0]});
      forall i, j | 0 <= i < j < |names|
        ensures names[i] != names[j]
      {
        assert names[j] == names[1..][j - 1];
        assert i > 0 ==> names[i] == names[1..][i - 1];
        assert names[1..][j - 1] in names[1..];
      }
    }
  }

  /** The stream of a directory is the concatenation, over a list that holds every path below it exactly once, each
  path immediately before all that is below it and the entries of each directory in key order, of the path's text
  and, for a file, its contents. */
  lemma {:induction false} StreamListsTheTree(nodes: Nodes, rel: Path, key: Key, text: Text)
      returns (list: seq<Path>)
    requires WellFormed(nodes) && Get(nodes, rel) == Some(Dir)
    ensures forall k :: k in list <==> k in nodes && rel < k
    ensures Distinct(list) && Nested(list) && SiblingsSorted(list, key)
    ensures CanonicalDir(nodes, rel, key, text) == Items(nodes, list, text)
  {
    list := ListDir(nodes, rel, key, text);
  }
}
