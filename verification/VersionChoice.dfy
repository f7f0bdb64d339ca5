/** Which version directory is chosen: by the cache scan, and among the installed directories.
Versions are any type with a total order, precedence in section 11 of Semantic Versioning 2.0.0 being one. */
module VersionChoice {
  import opened Wrappers

  type Name = string

  ghost predicate TotalOrder<V(!new)>(le: (V, V) -> bool) {
    && (forall a, b :: le(a, b) || le(b, a))
    && (forall a, b :: le(a, b) && le(b, a) ==> a == b)
    && (forall a, b, c :: le(a, b) && le(b, c) ==> le(a, c))
  }

  // ---------- the cache scan ----------

  /** What the scan asks of one directory entry: a name that is not hidden, parses, meets the requirement and
  is complete on disk. */
  function TryParseCacheEntry<V>(
      name: Name, parse: Name -> Option<V>, meets: V -> bool, complete: Name -> bool): Option<V>
  {
    if name != [] && name[0] == '.' then None
    else
      match parse(name)
      case None => None
      case Some(v) => if meets(v) && complete(name) then Some(v) else None
  }

  /** A visible name that parses, meets the requirement and is complete on disk. */
  predicate Matches<V>(name: Name, parse: Name -> Option<V>, meets: V -> bool, complete: Name -> bool) {
    !("." <= name) && parse(name).Some? && meets(parse(name).value) && complete(name)
  }

  /** The scan returns a greatest matching entry, and nothing exactly when no entry matches. */
  method FindMatchingCachedVersion<V(!new)>(
      listing: seq<Name>, parse: Name -> Option<V>, meets: V -> bool, complete: Name -> bool, le: (V, V) -> bool)
    returns (found: Option<(V, Name)>)
    requires TotalOrder(le)
    ensures found.None? <==> forall n :: n in listing ==> !Matches(n, parse, meets, complete)
    ensures found.Some? ==>
      var (v, name) := found.value;
      && name in listing && Matches(name, parse, meets, complete) && parse(name) == Some(v)
      && forall n :: n in listing && Matches(n, parse, meets, complete) ==> le(parse(n).value, v)
  {
    found := None;
    for i := 0 to |listing|
      invariant found.None? <==> forall n :: n in listing[..i] ==> TryParseCacheEntry(n, parse, meets, complete).None?
      invariant found.Some? ==>
        && found.value.1 in listing[..i]
        && TryParseCacheEntry(found.value.1, parse, meets, complete) == Some(found.value.0)
        && forall n :: n in listing[..i] && TryParseCacheEntry(n, parse, meets, complete).Some?
             ==> le(TryParseCacheEntry(n, parse, meets, complete).value, found.value.0)
    {
      assert listing[..i + 1] == listing[..i] + [listing[i]];
      match TryParseCacheEntry(listing[i], parse, meets, complete)
      case None =>
      case Some(v) =>
        if found.None? || le(found.value.0, v) {
          found := Some((v, listing[i]));
        }
    }
    assert listing[..|listing|] == listing;
  }

  // ---------- installed directories ----------

  /** A directory with a bin directory in it, and its version when its name parses. */
  datatype Candidate<V> = Candidate(path: Name, version: Option<V>)

  datatype Ordering = Less | Equal | Greater

  function Cmp<T(==)>(a: T, b: T, le: (T, T) -> bool): Ordering {
    if a == b then Equal else if le(a, b) then Less else Greater
  }

  /** The comparator: parsable versions above everything else, the rest by path. */
  function Compare<V(==)>(
      a: Candidate<V>, b: Candidate<V>, le: (V, V) -> bool, pathLe: (Name, Name) -> bool): Ordering
  {
    match (a.version, b.version)
    case (Some(va), Some(vb)) => Cmp(va, vb, le)
    case (Some(_), None) => Greater
    case (None, Some(_)) => Less
    case (None, None) => Cmp(a.path, b.path, pathLe)
  }

  predicate AtMost<V(==)>(a: Candidate<V>, b: Candidate<V>, le: (V, V) -> bool, pathLe: (Name, Name) -> bool) {
    Compare(a, b, le, pathLe) != Greater
  }

  /** The comparator is a total order up to entries it calls equal, as sorting needs. */
  lemma {:induction false} CompareIsOrder<V(!new)>(
      a: Candidate<V>, b: Candidate<V>, c: Candidate<V>, le: (V, V) -> bool, pathLe: (Name, Name) -> bool)
    requires TotalOrder(le) && TotalOrder(pathLe)
    ensures AtMost(a, b, le, pathLe) || AtMost(b, a, le, pathLe)
    ensures AtMost(a, b, le, pathLe) && AtMost(b, c, le, pathLe) ==> AtMost(a, c, le, pathLe)
    ensures AtMost(a, b, le, pathLe) && AtMost(b, a, le, pathLe)
      ==> a.version == b.version && (a.version.None? ==> a.path == b.path)
  {
  }

  ghost predicate SortedBy<V>(cs: seq<Candidate<V>>, le: (V, V) -> bool, pathLe: (Name, Name) -> bool) {
    forall i, j :: 0 <= i < j < |cs| ==> AtMost(cs[i], cs[j], le, pathLe)
  }

  /** The last element of any sorted arrangement has the highest version if any version parses, and otherwise
  the greatest path. */
  lemma {:induction false} LastIsHighest<V(!new)>(
      cs: seq<Candidate<V>>, sorted: seq<Candidate<V>>, le: (V, V) -> bool, pathLe: (Name, Name) -> bool)
    requires TotalOrder(le) && TotalOrder(pathLe)
    requires multiset(sorted) == multiset(cs) && cs != [] && SortedBy(sorted, le, pathLe)
    ensures |sorted| == |cs|
    ensures var last := sorted[|sorted| - 1];
      && last in cs
      && (forall c :: c in cs && c.version.Some? ==> last.version.Some? && le(c.version.value, last.version.value))
      && (last.version.None? ==> forall c :: c in cs ==> c.version.None? && pathLe(c.path, last.path))
  {
    assert |multiset(sorted)| == |sorted| && |multiset(cs)| == |cs|;
    var last := sorted[|sorted| - 1];
    assert last in multiset(sorted);
    forall c | c in cs
      ensures AtMost(c, last, le, pathLe)
    {
      assert c in multiset(cs);
      var i :| 0 <= i < |sorted| && sorted[i] == c;
      CompareIsOrder(last, last, last, le, pathLe);
    }
  }

  /** Two scans of the same entries in different orders agree. */
  lemma {:induction false} HighestIsUnique<V(!new)>(
      cs: seq<Candidate<V>>, a: seq<Candidate<V>>, b: seq<Candidate<V>>,
      le: (V, V) -> bool, pathLe: (Name, Name) -> bool)
    requires TotalOrder(le) && TotalOrder(pathLe) && cs != []
    requires multiset(a) == multiset(b) == multiset(cs) && SortedBy(a, le, pathLe) && SortedBy(b, le, pathLe)
    ensures |a| == |b| == |cs|
    ensures a[|a| - 1].version == b[|b| - 1].version
    ensures a[|a| - 1].version.None? ==> a[|a| - 1] == b[|b| - 1]
  {
    LastIsHighest(cs, a, le, pathLe);
    LastIsHighest(cs, b, le, pathLe);
    CompareIsOrder(a[|a| - 1], b[|b| - 1], a[|a| - 1], le, pathLe);
  }
}
