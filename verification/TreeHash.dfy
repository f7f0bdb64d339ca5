/** The byte stream fed to the hasher for a directory tree, whose root is the directory being hashed.

key gives the text a name is sorted by and text the text of a relative path; both replace what is not valid
UTF-8, so distinct names may get equal keys. */
module TreeHash {
  import opened Wrappers
  import opened Disk

  type Key = Name -> seq<Byte>
  type Text = Path -> seq<Byte>

  // ---------- order on keys ----------

  /** Byte-wise order of strings. */
  predicate LexLe(a: seq<Byte>, b: seq<Byte>) {
    a == [] || (b != [] && (a[0] < b[0] || (a[0] == b[0] && LexLe(a[1..], b[1..]))))
  }

  lemma {:induction false} LexTotal(a: seq<Byte>, b: seq<Byte>)
    ensures LexLe(a, b) || LexLe(b, a)
    ensures LexLe(a, b) && LexLe(b, a) ==> a == b
  {
    if a != [] && b != [] {
      LexTotal(a[1..], b[1..]);
      assert a == [a[0]] + a[1..] && b == [b[0]] + b[1..];
    }
  }

  lemma {:induction false} LexTransitive(a: seq<Byte>, b: seq<Byte>, c: seq<Byte>)
    requires LexLe(a, b) && LexLe(b, c)
    ensures LexLe(a, c)
  {
    if a != [] && a[0] == b[0] == c[0] {
      LexTransitive(a[1..], b[1..], c[1..]);
    }
  }

  /** At the first place where they differ the smaller string has the smaller byte, or it ends there. */
  lemma {:induction false} LexIsBytewise(a: seq<Byte>, b: seq<Byte>)
    ensures LexLe(a, b) <==>
      a <= b || exists i :: 0 <= i < |a| && i < |b| && a[..i] == b[..i] && a[i] < b[i]
  {
    if a != [] && b != [] {
      LexIsBytewise(a[1..], b[1..]);
      assert a == [a[0]] + a[1..] && b == [b[0]] + b[1..];
      if a[0] < b[0] {
        assert a[..0] == b[..0];
      }
      if a[0] == b[0] {
        if i :| 0 <= i < |a[1..]| && i < |b[1..]| && a[1..][..i] == b[1..][..i] && a[1..][i] < b[1..][i] {
          assert a[..i + 1] == [a[0]] + a[1..][..i] && b[..i + 1] == [b[0]] + b[1..][..i];
        }
      }
      if i :| 0 <= i < |a| && i < |b| && a[..i] == b[..i] && a[i] < b[i] {
        if i > 0 {
          assert a[..i][0] == b[..i][0];
          assert a[1..][..i - 1] == a[..i][1..] && b[1..][..i - 1] == b[..i][1..];
        }
      }
    }
  }

  predicate Sorted(names: seq<Name>, key: Key) {
    forall i, j :: 0 <= i < j < |names| ==> LexLe(key(names[i]), key(names[j]))
  }

  ghost predicate DistinctKeys(names: set<Name>, key: Key) {
    forall a, b :: a in names && b in names && key(a) == key(b) ==> a == b
  }

  predicate Lists(names: seq<Name>, all: set<Name>) {
    multiset(names) == multiset(all)
  }

  lemma {:induction false} ListsRest(names: seq<Name>, all: set<Name>)
    requires Lists(names, all) && names != []
    ensures names[0] in all && Lists(names[1..], all - {names[0]})
    ensures forall n :: n in names <==> n in all
  {
    var n := names[0];
    assert names == [n] + names[1..];
    assert multiset(names) == multiset{n} + multiset(names[1..]);
    assert n in multiset(names);
    assert multiset(all) == multiset{n} + multiset(all - {n});
    assert multiset(names[1..]) == multiset(names) - multiset{n} == multiset(all - {n});
    assert forall k :: k in names <==> k in multiset(names);
  }

  /** Sorting leaves no choice when no two names have the same key. */
  lemma {:induction false} SortedUnique(a: seq<Name>, b: seq<Name>, all: set<Name>, key: Key)
    requires Lists(a, all) && Lists(b, all) && Sorted(a, key) && Sorted(b, key) && DistinctKeys(all, key)
    ensures a == b
    decreases |a|
  {
    assert |multiset(a)| == |a| && |multiset(b)| == |b|;
    if a != [] {
      SameHead(a, b, all, key);
      ListsRest(a, all);
      ListsRest(b, all);
      SortedUnique(a[1..], b[1..], all - {a[0]}, key);
      assert a == [a[0]] + a[1..] && b == [b[0]] + b[1..];
    }
  }

  lemma {:induction false} SameHead(a: seq<Name>, b: seq<Name>, all: set<Name>, key: Key)
    requires Lists(a, all) && Lists(b, all) && Sorted(a, key) && Sorted(b, key) && DistinctKeys(all, key)
    requires a != [] && b != []
    ensures a[0] == b[0]
  {
    ListsRest(a, all);
    ListsRest(b, all);
    HeadLeast(a, b[0], key);
    HeadLeast(b, a[0], key);
    LexTotal(key(a[0]), key(b[0]));
  }

  lemma {:induction false} HeadLeast(names: seq<Name>, n: Name, key: Key)
    requires Sorted(names, key) && n in names
    ensures LexLe(key(names[0]), key(n))
  {
    var i :| 0 <= i < |names| && names[i] == n;
    LexTotal(key(n), key(n));
  }

  // ---------- the canonical stream ----------

  lemma {:induction false} Least(all: set<Name>, key: Key) returns (least: Name)
    requires all != {}
    ensures least in all && forall n :: n in all ==> LexLe(key(least), key(n))
    decreases |all|
  {
    var x :| x in all;
    LexTotal(key(x), key(x));
    least := x;
    assert forall n :: n in all ==> n == x || n in all - {x};
    if all - {x} != {} {
      var m := Least(all - {x}, key);
      LexTotal(key(m), key(m));
      LexTotal(key(m), key(x));
      if LexLe(key(m), key(x)) {
        least := m;
      }
      forall n | n in all && n != x
        ensures LexLe(key(least), key(n))
      {
        assert n in all - {x};
        LexTransitive(key(least), key(m), key(n));
      }
    }
  }

  lemma {:induction false} LeastExists(all: set<Name>, key: Key)
    requires all != {}
    ensures exists m :: m in all && forall n :: n in all ==> LexLe(key(m), key(n))
  {
    var m := Least(all, key);
  }

  /** The names in key order. */
  ghost function InOrder(all: set<Name>, key: Key): (names: seq<Name>)
    ensures Lists(names, all)
    decreases |all|
  {
    if all == {} then []
    else
      LeastExists(all, key);
      var m :| m in all && forall n :: n in all ==> LexLe(key(m), key(n));
      var rest := InOrder(all - {m}, key);
      assert multiset(all) == multiset{m} + multiset(all - {m});
      [m] + rest
  }

  lemma {:induction false} InOrderSorted(all: set<Name>, key: Key)
    ensures Sorted(InOrder(all, key), key)
    decreases |all|
  {
    if all != {} {
      var names := InOrder(all, key);
      var m := names[0];
      ListsRest(names, all);
      assert names == [m] + names[1..];
      assert names[1..] == InOrder(all - {m}, key);
      InOrderSorted(all - {m}, key);
      forall j | 0 < j < |names|
        ensures LexLe(key(m), key(names[j]))
      {
        assert names[j] in names;
      }
    }
  }

  /** A directory contributes its entries in key order, each as the text of its path and then its content. */
  ghost function CanonicalDir(nodes: Nodes, rel: Path, key: Key, text: Text): seq<Byte>
    requires rel in nodes
    decreases |Below(nodes, rel)|, 1, 0
  {
    EntriesStream(nodes, rel, InOrder(Children(nodes, rel), key), key, text)
  }

  ghost function EntriesStream(nodes: Nodes, rel: Path, names: seq<Name>, key: Key, text: Text): seq<Byte>
    requires rel in nodes
    decreases |Below(nodes, rel)|, 0, |names|
  {
    if names == [] then []
    else
      EntriesStream(nodes, rel, names[..|names| - 1], key, text)
      + EntryStream(nodes, rel, names[|names| - 1], key, text)
  }

  /** Links and other special files contribute their path only. */
  ghost function EntryStream(nodes: Nodes, rel: Path, name: Name, key: Key, text: Text): seq<Byte>
    requires rel in nodes
    decreases |Below(nodes, rel)|, 0, 0
  {
    text(rel + [name]) +
    match Get(nodes, rel + [name])
    case Some(Dir) =>
      BelowChildSmaller(nodes, rel, name);
      CanonicalDir(nodes, rel + [name], key, text)
    case Some(File(bytes)) => bytes
    case _ => []
  }

  lemma {:induction false} EntriesStep(
      nodes: Nodes, rel: Path, names: seq<Name>, i: nat, key: Key, text: Text, before: seq<Byte>)
    requires rel in nodes && i < |names|
    ensures before + EntriesStream(nodes, rel, names[..i], key, text) + EntryStream(nodes, rel, names[i], key, text)
         == before + EntriesStream(nodes, rel, names[..i + 1], key, text)
  {
    assert names[..i + 1][..i] == names[..i];
  }

  // ---------- the code ----------

  class Hasher {
    ghost var stream: seq<Byte>  // everything hashed so far

    constructor ()
      ensures stream == []
    {
      stream := [];
    }

    method Update(bytes: seq<Byte>)
      modifies this
      ensures stream == old(stream) + bytes
    {
      stream := stream + bytes;
    }
  }

  /** Lists a directory in whatever order the file system gives. */
  method ReadDir(nodes: Nodes, rel: Path) returns (entries: seq<Name>)
    ensures Lists(entries, Children(nodes, rel))
  {
    entries := [];
    var todo := Children(nodes, rel);
    while todo != {}
      invariant todo <= Children(nodes, rel)
      invariant multiset(entries) == multiset(Children(nodes, rel) - todo)
      decreases todo
    {
      var n :| n in todo;
      assert Children(nodes, rel) - (todo - {n}) == (Children(nodes, rel) - todo) + {n};
      entries, todo := entries + [n], todo - {n};
    }
    assert Children(nodes, rel) - todo == Children(nodes, rel);
  }

  method SortByKey(entries: seq<Name>, key: Key) returns (sorted: seq<Name>)
    ensures multiset(sorted) == multiset(entries) && Sorted(sorted, key)
  {
    sorted := [];
    for i := 0 to |entries|
      invariant multiset(sorted) == multiset(entries[..i]) && Sorted(sorted, key)
    {
      var n, j := entries[i], |sorted|;
      while j > 0 && !LexLe(key(sorted[j - 1]), key(n))
        invariant 0 <= j <= |sorted|
        invariant forall k :: j <= k < |sorted| ==> LexLe(key(n), key(sorted[k]))
      {
        LexTotal(key(sorted[j - 1]), key(n));
        j := j - 1;
      }
      InsertSorted(sorted, n, j, key);
      assert entries[..i + 1] == entries[..i] + [n];
      sorted := sorted[..j] + [n] + sorted[j..];
    }
    assert entries[..|entries|] == entries;
  }

  lemma {:induction false} InsertSorted(names: seq<Name>, n: Name, j: nat, key: Key)
    requires Sorted(names, key) && j <= |names|
    requires j > 0 ==> LexLe(key(names[j - 1]), key(n))
    requires forall k :: j <= k < |names| ==> LexLe(key(n), key(names[k]))
    ensures Sorted(names[..j] + [n] + names[j..], key)
    ensures multiset(names[..j] + [n] + names[j..]) == multiset(names) + multiset{n}
  {
    InsertMultiset(names, n, j);
    var all := names[..j] + [n] + names[j..];
    forall a, b | 0 <= a < b < |all|
      ensures LexLe(key(all[a]), key(all[b]))
    {
      if a < j && b == j {
        UpTo(names, n, j, key, a);
      }
    }
  }

  lemma {:induction false} UpTo(names: seq<Name>, n: Name, j: nat, key: Key, i: nat)
    requires Sorted(names, key) && i < j <= |names| && LexLe(key(names[j - 1]), key(n))
    ensures LexLe(key(names[i]), key(n))
  {
    if i < j - 1 {
      LexTransitive(key(names[i]), key(names[j - 1]), key(n));
    }
  }

  lemma {:induction false} InsertMultiset(names: seq<Name>, n: Name, j: nat)
    requires j <= |names|
    ensures multiset(names[..j] + [n] + names[j..]) == multiset(names) + multiset{n}
  {
    assert names == names[..j] + names[j..];
  }

  /** Reads a file in chunks of any sizes up to the buffer's; the stream does not show where they were cut. */
  method HashFileContents(bytes: seq<Byte>, hasher: Hasher)
    modifies hasher
    ensures hasher.stream == old(hasher.stream) + bytes
  {
    var read := 0;
    while read < |bytes|
      invariant 0 <= read <= |bytes|
      invariant hasher.stream == old(hasher.stream) + bytes[..read]
    {
      var size: nat :| 1 <= size <= 8192 && read + size <= |bytes|;
      assert bytes[..read + size] == bytes[..read] + bytes[read..read + size];
      hasher.Update(bytes[read..read + size]);
      read := read + size;
    }
    assert bytes[..|bytes|] == bytes;
  }

  /** Siblings that sort alike may be hashed either way round. */
  ghost predicate Commuting(nodes: Nodes, rel: Path, key: Key, text: Text)
    requires rel in nodes
  {
    forall a, b :: a in Children(nodes, rel) && b in Children(nodes, rel) && key(a) == key(b) ==>
      EntryStream(nodes, rel, a, key, text) + EntryStream(nodes, rel, b, key, text)
      == EntryStream(nodes, rel, b, key, text) + EntryStream(nodes, rel, a, key, text)
  }

  ghost predicate Hashable(nodes: Nodes, key: Key, text: Text) {
    WellFormed(nodes) && forall p :: p in nodes ==> Commuting(nodes, p, key, text)
  }

  /** For every tree, whatever the listing order and the chunking, the stream grows by the canonical one. */
  method HashDirectoryRecursive(nodes: Nodes, rel: Path, key: Key, text: Text, hasher: Hasher)
    requires Hashable(nodes, key, text) && Get(nodes, rel) == Some(Dir)
    modifies hasher
    ensures hasher.stream == old(hasher.stream) + CanonicalDir(nodes, rel, key, text)
    decreases |Below(nodes, rel)|, 2
  {
    var entries := ReadDir(nodes, rel);
    entries := SortByKey(entries, key);
    InOrderSorted(Children(nodes, rel), key);
    SameStream(nodes, rel, entries, InOrder(Children(nodes, rel), key), key, text);
    forall i | 0 <= i < |entries|
      ensures entries[i] in Children(nodes, rel)
    {
      assert entries[i] in multiset(entries);
    }
    HashEntries(nodes, rel, entries, key, text, hasher);
  }

  method HashEntries(nodes: Nodes, rel: Path, entries: seq<Name>, key: Key, text: Text, hasher: Hasher)
    requires Hashable(nodes, key, text) && rel in nodes
    requires forall i :: 0 <= i < |entries| ==> entries[i] in Children(nodes, rel)
    modifies hasher
    ensures hasher.stream == old(hasher.stream) + EntriesStream(nodes, rel, entries, key, text)
    decreases |Below(nodes, rel)|, 1
  {
    for i := 0 to |entries|
      invariant hasher.stream == old(hasher.stream) + EntriesStream(nodes, rel, entries[..i], key, text)
    {
      EntriesStep(nodes, rel, entries, i, key, text, old(hasher.stream));
      HashEntry(nodes, rel, entries[i], key, text, hasher);
    }
    assert entries[..|entries|] == entries;
  }

  /** One turn of the loop: the path, then what the entry holds. */
  method HashEntry(nodes: Nodes, rel: Path, name: Name, key: Key, text: Text, hasher: Hasher)
    requires Hashable(nodes, key, text) && rel in nodes && name in Children(nodes, rel)
    modifies hasher
    ensures hasher.stream == old(hasher.stream) + EntryStream(nodes, rel, name, key, text)
    decreases |Below(nodes, rel)|, 0
  {
    var entry := rel + [name];
    ChildrenExist(nodes, rel, name);
    BelowChildSmaller(nodes, rel, name);
    hasher.Update(text(entry));
    match nodes[entry]
    case Dir =>
      HashDirectoryRecursive(nodes, entry, key, text, hasher);
      Together(old(hasher.stream), text(entry), CanonicalDir(nodes, entry, key, text));
    case File(bytes) =>
      HashFileContents(bytes, hasher);
      Together(old(hasher.stream), text(entry), bytes);
    case Link(_) =>
      Together(old(hasher.stream), text(entry), []);
  }

  lemma {:induction false} Together(before: seq<Byte>, name: seq<Byte>, content: seq<Byte>)
    ensures before + name + content == before + (name + content)
    ensures before + name + [] == before + name
  {
  }

  // ---------- when the listing order shows ----------

  /** The contributions of the names, one after the other. */
  ghost function Flat(names: seq<Name>, f: Name -> seq<Byte>): seq<Byte> {
    if names == [] then [] else Flat(names[..|names| - 1], f) + f(names[|names| - 1])
  }

  ghost predicate CommuteIn(all: set<Name>, key: Key, f: Name -> seq<Byte>) {
    forall a, b :: a in all && b in all && key(a) == key(b) ==> f(a) + f(b) == f(b) + f(a)
  }

  lemma {:induction false} FlatAppend(x: seq<Name>, y: seq<Name>, f: Name -> seq<Byte>)
    ensures Flat(x + y, f) == Flat(x, f) + Flat(y, f)
    decreases |y|
  {
    if y == [] {
      assert x + y == x;
    } else {
      assert (x + y)[..|x + y| - 1] == x + y[..|y| - 1];
      FlatAppend(x, y[..|y| - 1], f);
    }
  }

  lemma {:induction false} FlatOne(n: Name, f: Name -> seq<Byte>)
    ensures Flat([n], f) == f(n)
  {
    assert [n][..0] == [];
  }

  lemma {:induction false} MoveToFront(names: seq<Name>, n: Name, all: set<Name>, key: Key, f: Name -> seq<Byte>)
    requires CommuteIn(all, key, f) && n in all
    requires forall m :: m in names ==> m in all && key(m) == key(n)
    ensures Flat(names, f) + f(n) == f(n) + Flat(names, f)
    decreases |names|
  {
    if names != [] {
      var init, m := names[..|names| - 1], names[|names| - 1];
      assert forall k :: k in init ==> k in names;
      MoveToFront(init, n, all, key, f);
      Rotate(Flat(init, f), f(m), f(n));
    }
  }

  lemma {:induction false} Rotate(s: seq<Byte>, m: seq<Byte>, n: seq<Byte>)
    requires s + n == n + s && m + n == n + m
    ensures (s + m) + n == n + (s + m)
  {
    assert (s + m) + n == s + (m + n) == (s + n) + m == n + (s + m);
  }

  /** Two sorted listings of the same entries give the same stream when entries that sort alike commute. */
  lemma {:induction false} SameFlat(a: seq<Name>, b: seq<Name>, all: set<Name>, key: Key, f: Name -> seq<Byte>)
    requires CommuteIn(all, key, f)
    requires Lists(a, all) && Lists(b, all) && Sorted(a, key) && Sorted(b, key)
    ensures Flat(a, f) == Flat(b, f)
    decreases |a|
  {
    assert |multiset(a)| == |a| && |multiset(b)| == |b|;
    if a != [] {
      var j := FindHead(a, b, all);
      TakenOut(a, 0, all, key);
      TakenOut(b, j, all, key);
      HeadsTaken(a, b, j, all, key, f);
      assert CommuteIn(all - {a[0]}, key, f);
      SameFlat(a[..0] + a[0 + 1..], b[..j] + b[j + 1..], all - {a[0]}, key, f);
    }
  }

  lemma {:induction false} FindHead(a: seq<Name>, b: seq<Name>, all: set<Name>) returns (j: nat)
    requires Lists(a, all) && Lists(b, all) && a != [] && b != []
    ensures j < |b| && b[j] == a[0] && a[0] in all
  {
    ListsRest(a, all);
    ListsRest(b, all);
    j :| 0 <= j < |b| && b[j] == a[0];
  }

  lemma {:induction false} HeadsTaken(
      a: seq<Name>, b: seq<Name>, j: nat, all: set<Name>, key: Key, f: Name -> seq<Byte>)
    requires CommuteIn(all, key, f) && a != [] && j < |b| && b[j] == a[0]
    requires Lists(a, all) && Lists(b, all) && Sorted(a, key) && Sorted(b, key)
    ensures Flat(a, f) == f(a[0]) + Flat(a[..0] + a[0 + 1..], f)
    ensures Flat(b, f) == f(a[0]) + Flat(b[..j] + b[j + 1..], f)
  {
    ListsRest(a, all);
    ListsRest(b, all);
    SortsAlike(a, b, j, key);
    assert forall m :: m in b[..j] ==> m in b;
    FirstTaken(b, j, all, key, f);
    FirstTaken(a, 0, all, key, f);
  }

  /** An entry that the ones before it sort like may as well come first. */
  lemma {:induction false} FirstTaken(b: seq<Name>, j: nat, all: set<Name>, key: Key, f: Name -> seq<Byte>)
    requires CommuteIn(all, key, f) && j < |b| && b[j] in all
    requires forall m :: m in b[..j] ==> m in all && key(m) == key(b[j])
    ensures Flat(b, f) == f(b[j]) + Flat(b[..j] + b[j + 1..], f)
  {
    MoveToFront(b[..j], b[j], all, key, f);
    assert b == b[..j] + [b[j]] + b[j + 1..];
    Around(b[..j], [b[j]], b[j + 1..], f);
    FlatOne(b[j], f);
    FlatAppend(b[..j], b[j + 1..], f);
    Shift(Flat(b[..j], f), f(b[j]), Flat(b[j + 1..], f));
  }

  lemma {:induction false} Shift(s: seq<Byte>, x: seq<Byte>, t: seq<Byte>)
    requires s + x == x + s
    ensures s + x + t == x + (s + t)
  {
  }

  lemma {:induction false} Around(pre: seq<Name>, mid: seq<Name>, post: seq<Name>, f: Name -> seq<Byte>)
    ensures Flat(pre + mid + post, f) == Flat(pre, f) + Flat(mid, f) + Flat(post, f)
  {
    FlatAppend(pre + mid, post, f);
    FlatAppend(pre, mid, f);
  }

  /** The names before the least of a listing sort like it. */
  lemma {:induction false} SortsAlike(a: seq<Name>, b: seq<Name>, j: nat, key: Key)
    requires Sorted(a, key) && Sorted(b, key) && a != [] && j < |b| && b[j] == a[0]
    requires forall m :: m in b ==> m in a
    ensures forall m :: m in b[..j] ==> key(m) == key(a[0])
  {
    forall i | 0 <= i < j
      ensures key(b[i]) == key(a[0])
    {
      HeadLeast(a, b[i], key);
      LexTotal(key(b[i]), key(a[0]));
    }
  }

  lemma {:induction false} TakenOut(b: seq<Name>, j: nat, all: set<Name>, key: Key)
    requires Lists(b, all) && Sorted(b, key) && j < |b|
    ensures Lists(b[..j] + b[j + 1..], all - {b[j]}) && Sorted(b[..j] + b[j + 1..], key)
  {
    TakenLists(b, j, all);
    TakenSorted(b, j, key);
  }

  lemma {:induction false} TakenLists(b: seq<Name>, j: nat, all: set<Name>)
    requires Lists(b, all) && j < |b|
    ensures Lists(b[..j] + b[j + 1..], all - {b[j]})
  {
    var c, x := b[..j] + b[j + 1..], b[j];
    assert b == b[..j] + [x] + b[j + 1..];
    assert multiset(b[..j] + [x] + b[j + 1..]) == multiset(b[..j]) + multiset{x} + multiset(b[j + 1..]);
    assert multiset(c) == multiset(b[..j]) + multiset(b[j + 1..]);
    assert x in multiset(b) && x in multiset(all);
    assert multiset(all) == multiset{x} + multiset(all - {x});
    assert multiset(c) == multiset(all) - multiset{x} == multiset(all - {x});
  }

  lemma {:induction false} TakenSorted(b: seq<Name>, j: nat, key: Key)
    requires Sorted(b, key) && j < |b|
    ensures Sorted(b[..j] + b[j + 1..], key)
  {
    var c := b[..j] + b[j + 1..];
    forall i, k | 0 <= i < k < |c|
      ensures LexLe(key(c[i]), key(c[k]))
    {
      var i', k' := if i < j then i else i + 1, if k < j then k else k + 1;
      assert c[i] == b[i'] && c[k] == b[k'];
    }
  }

  /** Two entries that sort alike can stand side by side, in either order. */
  lemma {:induction false} SideBySide(all: set<Name>, a: Name, b: Name, key: Key)
      returns (pre: seq<Name>, post: seq<Name>)
    requires a in all && b in all && a != b && key(a) == key(b)
    ensures Lists(pre + [a, b] + post, all) && Sorted(pre + [a, b] + post, key)
    ensures Lists(pre + [b, a] + post, all) && Sorted(pre + [b, a] + post, key)
  {
    var rest := InOrder(all - {a, b}, key);
    InOrderSorted(all - {a, b}, key);
    var j := PlaceFor(rest, a, key);
    pre, post := rest[..j], rest[j..];
    PairSet(all, a, b);
    PairIn(rest, a, b, j, key);
    PairIn(rest, b, a, j, key);
  }

  lemma {:induction false} PairSet(all: set<Name>, a: Name, b: Name)
    requires a in all && b in all && a != b
    ensures multiset(all) == multiset(all - {a, b}) + multiset{a, b}
    ensures multiset{a, b} == multiset{b, a}
  {
  }

  lemma {:induction false} PairIn(rest: seq<Name>, a: Name, b: Name, j: nat, key: Key)
    requires Sorted(rest, key) && j <= |rest| && key(a) == key(b)
    requires j > 0 ==> LexLe(key(rest[j - 1]), key(a))
    requires forall k :: j <= k < |rest| ==> LexLe(key(a), key(rest[k]))
    ensures Sorted(rest[..j] + [a, b] + rest[j..], key)
    ensures multiset(rest[..j] + [a, b] + rest[j..]) == multiset(rest) + multiset{a, b}
  {
    var one := rest[..j] + [b] + rest[j..];
    InsertSorted(rest, b, j, key);
    BoundAfter(rest, a, b, j, key);
    InsertSorted(one, a, j, key);
    PairSeq(rest, a, b, j);
  }

  lemma {:induction false} PairSeq(rest: seq<Name>, a: Name, b: Name, j: nat)
    requires j <= |rest|
    ensures var one := rest[..j] + [b] + rest[j..];
      one[..j] + [a] + one[j..] == rest[..j] + [a, b] + rest[j..]
  {
    var one := rest[..j] + [b] + rest[j..];
    assert one[..j] == rest[..j] && one[j..] == [b] + rest[j..];
  }

  lemma {:induction false} BoundAfter(rest: seq<Name>, a: Name, b: Name, j: nat, key: Key)
    requires j <= |rest| && key(a) == key(b)
    requires forall k :: j <= k < |rest| ==> LexLe(key(a), key(rest[k]))
    ensures var one := rest[..j] + [b] + rest[j..];
      && (forall k :: j <= k < |one| ==> LexLe(key(a), key(one[k])))
      && (j > 0 ==> one[j - 1] == rest[j - 1])
  {
    LexTotal(key(a), key(b));
    var one := rest[..j] + [b] + rest[j..];
    forall k | j <= k < |one|
      ensures LexLe(key(a), key(one[k]))
    {
      if k > j {
        assert one[k] == rest[k - 1];
      }
    }
  }

  lemma {:induction false} PlaceFor(names: seq<Name>, n: Name, key: Key) returns (j: nat)
    requires Sorted(names, key)
    ensures j <= |names| && (j > 0 ==> LexLe(key(names[j - 1]), key(n)))
    ensures forall k :: j <= k < |names| ==> LexLe(key(n), key(names[k]))
  {
    j := |names|;
    while j > 0 && !LexLe(key(names[j - 1]), key(n))
      invariant j <= |names| && forall k :: j <= k < |names| ==> LexLe(key(n), key(names[k]))
    {
      LexTotal(key(names[j - 1]), key(n));
      j := j - 1;
    }
  }

  lemma {:induction false} Cancel(s: seq<Byte>, x: seq<Byte>, y: seq<Byte>, t: seq<Byte>)
    requires s + x + t == s + y + t
    ensures x == y
  {
    assert |x| == |y|;
    assert (s + x + t)[|s|..|s| + |x|] == x && (s + y + t)[|s|..|s| + |y|] == y;
  }

  /** What an entry contributes, as a function of its name. */
  ghost function Contribution(nodes: Nodes, rel: Path, key: Key, text: Text): Name -> seq<Byte>
    requires rel in nodes
  {
    n => if rel in nodes then EntryStream(nodes, rel, n, key, text) else []
  }

  lemma {:induction false} StreamIsFlat(nodes: Nodes, rel: Path, names: seq<Name>, key: Key, text: Text)
    requires rel in nodes
    ensures EntriesStream(nodes, rel, names, key, text) == Flat(names, Contribution(nodes, rel, key, text))
    decreases |names|
  {
    if names != [] {
      StreamIsFlat(nodes, rel, names[..|names| - 1], key, text);
    }
  }

  lemma {:induction false} SameStream(nodes: Nodes, rel: Path, a: seq<Name>, b: seq<Name>, key: Key, text: Text)
    requires rel in nodes && Commuting(nodes, rel, key, text)
    requires Lists(a, Children(nodes, rel)) && Lists(b, Children(nodes, rel)) && Sorted(a, key) && Sorted(b, key)
    ensures EntriesStream(nodes, rel, a, key, text) == EntriesStream(nodes, rel, b, key, text)
  {
    StreamIsFlat(nodes, rel, a, key, text);
    StreamIsFlat(nodes, rel, b, key, text);
    SameFlat(a, b, Children(nodes, rel), key, Contribution(nodes, rel, key, text));
  }

  /** All sorted listings of the directory give the same stream. */
  ghost predicate OrderHidden(nodes: Nodes, rel: Path, key: Key, text: Text)
    requires rel in nodes
  {
    forall x, y ::
      && Lists(x, Children(nodes, rel)) && Lists(y, Children(nodes, rel)) && Sorted(x, key) && Sorted(y, key)
      ==> EntriesStream(nodes, rel, x, key, text) == EntriesStream(nodes, rel, y, key, text)
  }

  /** The listing order of a directory is hidden if and only if its entries that sort alike commute. */
  lemma {:induction false} HiddenIffCommuting(nodes: Nodes, rel: Path, key: Key, text: Text)
    requires rel in nodes
    ensures OrderHidden(nodes, rel, key, text) <==> Commuting(nodes, rel, key, text)
  {
    var all := Children(nodes, rel);
    if Commuting(nodes, rel, key, text) {
      forall x, y | Lists(x, all) && Lists(y, all) && Sorted(x, key) && Sorted(y, key)
        ensures EntriesStream(nodes, rel, x, key, text) == EntriesStream(nodes, rel, y, key, text)
      {
        SameStream(nodes, rel, x, y, key, text);
      }
    }
    if OrderHidden(nodes, rel, key, text) {
      forall a, b | a in all && b in all && key(a) == key(b)
        ensures EntryStream(nodes, rel, a, key, text) + EntryStream(nodes, rel, b, key, text)
             == EntryStream(nodes, rel, b, key, text) + EntryStream(nodes, rel, a, key, text)
      {
        if a != b {
          SwapShows(nodes, rel, a, b, key, text);
        }
      }
    }
  }

  lemma {:induction false} SwapShows(nodes: Nodes, rel: Path, a: Name, b: Name, key: Key, text: Text)
    requires rel in nodes && OrderHidden(nodes, rel, key, text)
    requires a in Children(nodes, rel) && b in Children(nodes, rel) && a != b && key(a) == key(b)
    ensures EntryStream(nodes, rel, a, key, text) + EntryStream(nodes, rel, b, key, text)
         == EntryStream(nodes, rel, b, key, text) + EntryStream(nodes, rel, a, key, text)
  {
    var pre, post := SideBySide(Children(nodes, rel), a, b, key);
    var x, y := pre + [a, b] + post, pre + [b, a] + post;
    StreamIsFlat(nodes, rel, x, key, text);
    StreamIsFlat(nodes, rel, y, key, text);
    SwapCancels(pre, a, b, post, Contribution(nodes, rel, key, text));
  }

  lemma {:induction false} SwapCancels(
      pre: seq<Name>, a: Name, b: Name, post: seq<Name>, f: Name -> seq<Byte>)
    requires Flat(pre + [a, b] + post, f) == Flat(pre + [b, a] + post, f)
    ensures f(a) + f(b) == f(b) + f(a)
  {
    Around(pre, [a, b], post, f);
    Around(pre, [b, a], post, f);
    Cancel(Flat(pre, f), Flat([a, b], f), Flat([b, a], f), Flat(post, f));
    FlatTwo(a, b, f);
    FlatTwo(b, a, f);
  }

  lemma {:induction false} FlatTwo(a: Name, b: Name, f: Name -> seq<Byte>)
    ensures Flat([a, b], f) == f(a) + f(b)
  {
    FlatAppend([a], [b], f);
    assert [a] + [b] == [a, b];
    FlatOne(a, f);
    FlatOne(b, f);
  }

  /** Distinct keys leave nothing to commute. */
  lemma {:induction false} DistinctKeysCommute(nodes: Nodes, key: Key, text: Text)
    requires WellFormed(nodes) && forall p :: p in nodes ==> DistinctKeys(Children(nodes, p), key)
    ensures Hashable(nodes, key, text)
  {
    forall p | p in nodes
      ensures Commuting(nodes, p, key, text)
    {
      assert DistinctKeys(Children(nodes, p), key);
    }
  }

  /** With equal keys the order does show: two files whose names differ but sort and print alike may be
  hashed either way round. */
  lemma {:induction false} EqualKeysShowOrder(nodes: Nodes, a: Name, b: Name, key: Key, text: Text)
    requires a != b && key(a) == key(b) && text([a]) == text([b])
    requires nodes == map[[] := Dir, [a] := File([1]), [b] := File([2])]
    ensures Sorted([a, b], key) && Sorted([b, a], key)
    ensures Lists([a, b], Children(nodes, [])) && Lists([b, a], Children(nodes, []))
    ensures EntriesStream(nodes, [], [a, b], key, text) != EntriesStream(nodes, [], [b, a], key, text)
  {
    LexTotal(key(a), key(b));
    forall n
      ensures n in Children(nodes, []) <==> n == a || n == b
    {
      ChildrenExist(nodes, [], n);
      assert [] + [n] == [n];
    }
    assert Children(nodes, []) == {a, b};
    PairStream(nodes, a, b, key, text);
    PairStream(nodes, b, a, key, text);
    var x := text([a]);
    assert ((x + [1]) + (x + [2]))[|x|] == 1;
    assert ((x + [2]) + (x + [1]))[|x|] == 2;
  }

  lemma {:induction false} PairStream(nodes: Nodes, a: Name, b: Name, key: Key, text: Text)
    requires [] in nodes
    requires Get(nodes, [a]).Some? && nodes[[a]].File? && Get(nodes, [b]).Some? && nodes[[b]].File?
    ensures EntriesStream(nodes, [], [a, b], key, text)
         == (text([a]) + nodes[[a]].bytes) + (text([b]) + nodes[[b]].bytes)
  {
    assert [a, b][..1] == [a] && [a][..0] == [];
    assert [] + [a] == [a] && [] + [b] == [b];
    assert EntriesStream(nodes, [], [a], key, text) == [] + EntryStream(nodes, [], a, key, text);
  }
}
