/** The bounded summary of environment changes.  A string is a sequence of Unicode scalar values; lengths and
limits are in bytes of its UTF-8 form (section 3 of RFC 3629). */
module Summary {
  import opened Wrappers

  const MAX_ENV_CHANGES_SUMMARY_LEN: nat := 512

  function CharLen(c: char): (n: nat)
    ensures 1 <= n <= 4
  {
    var u := c as int;
    if u < 0x80 then 1 else if u < 0x800 then 2 else if u < 0x10000 then 3 else 4
  }

  /** The bytes of a character in UTF-8. */
  function Utf8(c: char): seq<int> {
    var u := c as int;
    if u < 0x80 then [u]
    else if u < 0x800 then [0xC0 + u / 64, 0x80 + u % 64]
    else if u < 0x10000 then [0xE0 + u / 4096, 0x80 + u / 64 % 64, 0x80 + u % 64]
    else [0xF0 + u / 262144, 0x80 + u / 4096 % 64, 0x80 + u / 64 % 64, 0x80 + u % 64]
  }

  /** The number that the bytes in front stand for, and how many they are; told by the first of them. */
  function ReadUtf8(b: seq<int>): (int, nat) {
    if |b| >= 1 && b[0] < 0x80 then (b[0], 1)
    else if |b| >= 2 && b[0] < 0xE0 then ((b[0] - 0xC0) * 64 + (b[1] - 0x80), 2)
    else if |b| >= 3 && b[0] < 0xF0 then ((b[0] - 0xE0) * 4096 + (b[1] - 0x80) * 64 + (b[2] - 0x80), 3)
    else if |b| >= 4 then
      ((b[0] - 0xF0) * 262144 + (b[1] - 0x80) * 4096 + (b[2] - 0x80) * 64 + (b[3] - 0x80), 4)
    else (0, 0)
  }

  /** The length of a character is that of its bytes, which read back as the character whatever follows. */
  lemma {:induction false} CharLenIsUtf8(c: char, rest: seq<int>)
    ensures |Utf8(c)| == CharLen(c)
    ensures ReadUtf8(Utf8(c) + rest) == (c as int, CharLen(c))
    ensures forall i :: 0 <= i < |Utf8(c)| ==> 0 <= Utf8(c)[i] < 256
  {
    var u := c as int;
    assert u == u / 64 * 64 + u % 64;
    assert u / 64 == u / 4096 * 64 + u / 64 % 64;
    assert u / 4096 == u / 262144 * 64 + u / 4096 % 64;
  }

  function ByteLen(s: string): nat {
    if s == [] then 0 else ByteLen(s[..|s| - 1]) + CharLen(s[|s| - 1])
  }

  lemma {:induction false} ByteLenStep(s: string, i: nat)
    requires i < |s|
    ensures ByteLen(s[..i + 1]) == ByteLen(s[..i]) + CharLen(s[i])
  {
    assert s[..i + 1][..i] == s[..i];
  }

  lemma {:induction false} ByteLenMonotone(s: string, i: nat, j: nat)
    requires i <= j <= |s|
    ensures ByteLen(s[..i]) <= ByteLen(s[..j])
    ensures i < j ==> ByteLen(s[..i]) < ByteLen(s[..j])
    decreases j
  {
    if i < j {
      ByteLenStep(s, j - 1);
      ByteLenMonotone(s, i, j - 1);
    }
  }

  predicate IsWhitespace(c: char) {
    var u := c as int;
    || 9 <= u <= 13 || u == 0x20 || u == 0x85 || u == 0xA0 || u == 0x1680 || 0x2000 <= u <= 0x200A
    || u == 0x2028 || u == 0x2029 || u == 0x202F || u == 0x205F || u == 0x3000
  }

  function TrimEnd(s: string): (t: string)
    ensures t <= s
    ensures t == [] || !IsWhitespace(t[|t| - 1])
    ensures forall i :: |t| <= i < |s| ==> IsWhitespace(s[i])
  {
    if s != [] && IsWhitespace(s[|s| - 1]) then TrimEnd(s[..|s| - 1]) else s
  }

  function Commas(s: string): nat {
    if s == [] then 0 else (if s[0] == ',' then 1 else 0) + Commas(s[1..])
  }

  lemma {:induction false} CommasAppend(s: string, t: string)
    ensures Commas(s + t) == Commas(s) + Commas(t)
  {
    if s == [] {
      assert s + t == t;
    } else {
      assert (s + t)[1..] == s[1..] + t;
      CommasAppend(s[1..], t);
    }
  }

  function StripComma(s: string): string {
    if s != [] && s[|s| - 1] == ',' then s[..|s| - 1] else s
  }

  function EndsWith(s: string, suffix: string): bool {
    |suffix| <= |s| && s[|s| - |suffix|..] == suffix
  }

  function Decimal(n: nat): string {
    var digit := [('0' as int + n % 10) as char];
    if n < 10 then digit else Decimal(n / 10) + digit
  }

  /** The number a string of digits stands for. */
  function ReadDecimal(s: string): int {
    if s == [] then 0 else 10 * ReadDecimal(s[..|s| - 1]) + (s[|s| - 1] as int - '0' as int)
  }

  lemma {:induction false} DecimalReadsBack(n: nat)
    ensures ReadDecimal(Decimal(n)) == n
  {
    var d, digit := Decimal(n), [('0' as int + n % 10) as char];
    if n < 10 {
      assert d[..0] == [];
    } else {
      DecimalReadsBack(n / 10);
      assert d[..|d| - 1] == Decimal(n / 10);
    }
  }

  // ---------- where to cut ----------

  /** n is the number of characters that start before the limit. */
  ghost predicate Fits(s: string, maxLen: nat, n: nat) {
    && n <= |s|
    && (forall i :: 0 <= i < n ==> ByteLen(s[..i]) < maxLen)
    && (n < |s| ==> ByteLen(s[..n]) >= maxLen)
  }

  /** A cut after the last comma that fits, when that keeps more than half of the limit. */
  ghost predicate CommaCut(s: string, maxLen: nat, n: nat, kept: nat) {
    0 < kept <= n <= |s| && s[kept - 1] == ',' && ',' !in s[kept..n] && 2 * ByteLen(s[..kept]) > maxLen
  }

  /** Otherwise everything that fits is kept. */
  ghost predicate CutAt(s: string, maxLen: nat, n: nat, kept: nat) {
    && Fits(s, maxLen, n)
    && kept <= n
    && (CommaCut(s, maxLen, n, kept) || (kept == n && forall k: nat :: !CommaCut(s, maxLen, n, k)))
  }

  lemma {:induction false} NoCommaInTail(s: string, k: nat)
    requires k <= |s| && ',' !in s[k..]
    ensures forall j :: k <= j < |s| ==> s[j] != ','
  {
    forall j | k <= j < |s|
      ensures s[j] != ','
    {
      assert s[j] == s[k..][j - k];
    }
  }

  lemma {:induction false} LastCommaIsUnique(s: string, k: nat, comma: nat)
    requires 0 < k <= |s| && s[k - 1] == ',' && ',' !in s[k..]
    requires comma <= |s| && ',' !in s[comma..] && (comma > 0 ==> s[comma - 1] == ',')
    ensures k == comma
  {
    NoCommaInTail(s, k);
    NoCommaInTail(s, comma);
  }

  lemma {:induction false} OnlyTheLastComma(s: string, maxLen: nat, n: nat, comma: nat)
    requires comma <= n <= |s| && ',' !in s[comma..n] && (comma > 0 ==> s[comma - 1] == ',')
    ensures forall k: nat :: CommaCut(s, maxLen, n, k) ==> k == comma
  {
    forall k: nat | CommaCut(s, maxLen, n, k)
      ensures k == comma
    {
      LastCommaIsUnique(s[..n], k, comma);
    }
  }

  method FindPreferredCutPoint(changes: string, maxLen: nat) returns (cut: nat)
    ensures exists n: nat, kept: nat :: CutAt(changes, maxLen, n, kept) && cut == ByteLen(changes[..kept])
  {
    cut := 0;
    var lastComma: Option<nat> := None;
    var i, idx := 0, 0;
    ghost var comma: nat := 0;
    while i < |changes|
      invariant 0 <= i <= |changes| && idx == cut == ByteLen(changes[..i])
      invariant forall j :: 0 <= j < i ==> ByteLen(changes[..j]) < maxLen
      invariant lastComma.None? ==> comma == 0
      invariant lastComma.Some? ==>
        0 < comma <= i && changes[comma - 1] == ',' && lastComma.value == ByteLen(changes[..comma])
      invariant comma <= i && ',' !in changes[comma..i]
    {
      if idx >= maxLen {
        break;
      }
      ByteLenStep(changes, i);
      cut := idx + CharLen(changes[i]);
      if changes[i] == ',' {
        lastComma := Some(cut);
        comma := i + 1;
      }
      i, idx := i + 1, cut;
    }
    OnlyTheLastComma(changes, maxLen, i, comma);
    if lastComma.Some? && lastComma.value * 2 > maxLen {
      cut := lastComma.value;
      assert CutAt(changes, maxLen, i, comma);
    } else {
      assert CutAt(changes, maxLen, i, i);
    }
  }

  // ---------- the truncated text ----------

  function ShownText(changes: string, kept: nat): string
    requires kept <= |changes|
  {
    TrimEnd(changes[..kept])
  }

  /** The count of entries the text shows. */
  function Shown(text: string): nat {
    Commas(StripComma(text)) + 1
  }

  function MoreText(remaining: nat): string {
    "+ " + Decimal(remaining) + " more"
  }

  function Suffix(text: string, changeCount: nat): string {
    var shown := Shown(text);
    if changeCount > shown then
      (if text != [] && !EndsWith(text, ",") then ", " else "") + MoreText(changeCount - shown)
    else if EndsWith(text, "...") then ""
    else "..."
  }

  method TruncateEnvChangesSummary(changes: string, maxLen: nat, changeCount: nat) returns (summary: string)
    ensures ByteLen(changes) <= maxLen ==> summary == changes
    ensures ByteLen(changes) > maxLen ==>
      exists n, kept :: CutAt(changes, maxLen, n, kept)
        && summary == ShownText(changes, kept) + Suffix(ShownText(changes, kept), changeCount)
  {
    var length := CountBytes(changes);
    if length <= maxLen {
      return changes;
    }
    var cut := FindPreferredCutPoint(changes, maxLen);
    ghost var n: nat, kept: nat :| CutAt(changes, maxLen, n, kept) && cut == ByteLen(changes[..kept]);
    var truncated := TakeBytes(changes, cut, kept);
    truncated := TrimEnd(truncated);
    var commas := CountCommas(StripComma(truncated));
    summary := AppendTruncationSuffix(truncated, commas + 1, changeCount);
  }

  method CountBytes(s: string) returns (length: nat)
    ensures length == ByteLen(s)
  {
    length := 0;
    for i := 0 to |s|
      invariant length == ByteLen(s[..i])
    {
      ByteLenStep(s, i);
      length := length + CharLen(s[i]);
    }
    assert s[..|s|] == s;
  }

  method CountCommas(s: string) returns (commas: nat)
    ensures commas == Commas(s)
  {
    commas := 0;
    for i := 0 to |s|
      invariant commas == Commas(s[..i])
    {
      assert s[..i + 1] == s[..i] + [s[i]];
      CommasAppend(s[..i], [s[i]]);
      assert [s[i]][1..] == [];
      if s[i] == ',' {
        commas := commas + 1;
      }
    }
    assert s[..|s|] == s;
  }

  /** The characters that start before the cut. */
  method TakeBytes(changes: string, cut: nat, ghost kept: nat) returns (taken: string)
    requires kept <= |changes| && cut == ByteLen(changes[..kept])
    ensures taken == changes[..kept]
  {
    taken := [];
    var i, idx := 0, 0;
    while i < |changes| && idx < cut
      invariant 0 <= i <= kept && idx == ByteLen(changes[..i]) && taken == changes[..i]
    {
      ByteLenStep(changes, i);
      if i >= kept {
        ByteLenMonotone(changes, kept, i);
      }
      taken := taken + [changes[i]];
      i, idx := i + 1, idx + CharLen(changes[i]);
    }
    ByteLenMonotone(changes, i, kept);
  }

  lemma {:induction false} Reassociate(s: string, t: string, u: string)
    ensures (s + t) + u == s + (t + u)
    ensures s + "" == s
  {
  }

  method AppendTruncationSuffix(truncated: string, shown: nat, changeCount: nat) returns (summary: string)
    requires shown == Shown(truncated)
    ensures summary == truncated + Suffix(truncated, changeCount)
  {
    summary := truncated;
    if changeCount > shown {
      var remaining := changeCount - shown;
      Reassociate(truncated, "", MoreText(remaining));
      if summary != [] && !EndsWith(summary, ",") {
        summary := summary + ", ";
        Reassociate(truncated, ", ", MoreText(remaining));
      }
      summary := summary + MoreText(remaining);
    } else if !EndsWith(summary, "...") {
      summary := summary + "...";
    }
  }

  // ---------- what the summary says ----------

  predicate Digits(d: string) {
    d != "" && forall i :: 0 <= i < |d| ==> '0' <= d[i] <= '9'
  }

  lemma {:induction false} DecimalIsDigits(n: nat)
    ensures Digits(Decimal(n))
  {
    if n >= 10 {
      DecimalIsDigits(n / 10);
    }
  }

  /** The suffix tells how many changes are left out: what is shown and the number in it make up the count.  It is set
  off by a comma unless the text is empty or ends in one; with nothing left out it only marks the cut. */
  lemma {:induction false} SuffixTells(text: string, count: nat) returns (sep: string, digits: string)
    ensures count > Shown(text) ==>
      && Suffix(text, count) == sep + ("+ " + digits + " more") && Digits(digits)
      && Shown(text) + ReadDecimal(digits) == count
      && sep == (if text == "" || text[|text| - 1] == ',' then "" else ", ")
    ensures count <= Shown(text) ==>
      Suffix(text, count) in {"", "..."} && EndsWith(text + Suffix(text, count), "...")
  {
    LastChar(text);
    sep := if text == "" || text[|text| - 1] == ',' then "" else ", ";
    if count > Shown(text) {
      digits := Decimal(count - Shown(text));
      DecimalReadsBack(count - Shown(text));
      DecimalIsDigits(count - Shown(text));
    } else {
      digits := "";
      if EndsWith(text, "...") {
        assert text + "" == text;
      } else {
        assert (text + "...")[|text|..] == "...";
      }
    }
  }

  /** A comma that starts within the limit and ends past its half. */
  predicate LateComma(s: string, maxLen: nat, j: nat)
    requires j < |s|
  {
    s[j] == ',' && ByteLen(s[..j]) < maxLen && 2 * ByteLen(s[..j + 1]) > maxLen
  }

  /** The cut keeps more than half of the limit.  It is right after a comma whenever some comma in the latter half
  starts within the limit, and otherwise keeps all that starts within it. */
  lemma {:induction false} CutIsBest(changes: string, maxLen: nat, n: nat, kept: nat)
    requires CutAt(changes, maxLen, n, kept) && ByteLen(changes) > maxLen && maxLen > 0
    ensures 2 * ByteLen(changes[..kept]) > maxLen
    ensures forall j :: 0 <= j < |changes| && LateComma(changes, maxLen, j) ==>
      0 < kept && changes[kept - 1] == ',' && j < kept
    ensures (kept > 0 && changes[kept - 1] == ',') || ByteLen(changes[..kept]) >= maxLen
  {
    assert changes[..|changes|] == changes;
    assert ByteLen(changes[..n]) >= maxLen;
    forall j | 0 <= j < |changes| && LateComma(changes, maxLen, j)
      ensures 0 < kept && changes[kept - 1] == ',' && j < kept
    {
      if j >= n {
        ByteLenMonotone(changes, n, j);
      }
      LatterComma(changes, maxLen, n, kept, j);
    }
  }

  lemma {:induction false} LatterComma(changes: string, maxLen: nat, n: nat, kept: nat, j: nat)
    requires CutAt(changes, maxLen, n, kept) && j < n && changes[j] == ','
    requires 2 * ByteLen(changes[..j + 1]) > maxLen
    ensures 0 < kept && changes[kept - 1] == ',' && j < kept
  {
    var last := LastComma(changes, n, j);
    ByteLenMonotone(changes, j + 1, last + 1);
    assert CommaCut(changes, maxLen, n, last + 1);
    OnlyTheLastComma(changes, maxLen, n, last + 1);
  }

  lemma {:induction false} LastComma(s: string, n: nat, j: nat) returns (last: nat)
    requires j < n <= |s| && s[j] == ','
    ensures j <= last < n && s[last] == ',' && ',' !in s[last + 1..n]
  {
    last := n - 1;
    while s[last] != ','
      invariant j <= last < n && ',' !in s[last + 1..n]
      decreases last
    {
      assert s[last..n] == [s[last]] + s[last + 1..n];
      last := last - 1;
    }
  }

  /** The text is a prefix of the changes, cut between characters, and at most three bytes over the limit. */
  lemma {:induction false} TextIsBounded(changes: string, maxLen: nat, n: nat, kept: nat)
    requires CutAt(changes, maxLen, n, kept)
    ensures ShownText(changes, kept) <= changes
    ensures ByteLen(ShownText(changes, kept)) <= maxLen + 3
  {
    var text := ShownText(changes, kept);
    assert text == changes[..|text|];
    ByteLenMonotone(changes, |text|, kept);
    ByteLenMonotone(changes, kept, n);
    if n > 0 {
      ByteLenStep(changes, n - 1);
      assert ByteLen(changes[..n - 1]) < maxLen;
    }
  }

  /** The entries joined with a comma and a space. */
  function Join(entries: seq<string>): string {
    if entries == [] then ""
    else if |entries| == 1 then entries[0]
    else entries[0] + ", " + Join(entries[1..])
  }

  ghost predicate CommaFree(entries: seq<string>) {
    forall i :: 0 <= i < |entries| ==> ',' !in entries[i]
  }

  lemma {:induction false} NoCommas(s: string)
    ensures Commas(s) == 0 <==> ',' !in s
  {
    if s != [] {
      NoCommas(s[1..]);
      assert s == [s[0]] + s[1..];
    }
  }

  lemma {:induction false} JoinCons(e: string, rest: seq<string>)
    requires rest != []
    ensures Join([e] + rest) == e + ", " + Join(rest)
  {
    assert ([e] + rest)[1..] == rest;
  }

  /** The text ends inside the entry after the first c, or just before it. */
  ghost predicate EndsIn(entries: seq<string>, t: string, c: nat) {
    && c < |entries|
    && t <= Join(entries[..c + 1])
    && (c > 0 ==> Join(entries[..c]) + "," <= t)
  }

  lemma {:induction false} EndsInLater(e: string, rest: seq<string>, u: string, c: nat)
    requires EndsIn(rest, u, c)
    ensures EndsIn([e] + rest, e + ", " + u, c + 1)
  {
    var entries, head := [e] + rest, e + ", ";
    assert entries[..c + 2] == [e] + rest[..c + 1];
    JoinCons(e, rest[..c + 1]);
    PrefixCat(head, u, Join(rest[..c + 1]));
    assert entries[..c + 1] == [e] + rest[..c];
    if c > 0 {
      JoinCons(e, rest[..c]);
      PrefixCat(head, Join(rest[..c]) + ",", u);
      assert head + (Join(rest[..c]) + ",") == Join(entries[..c + 1]) + ",";
    } else {
      assert rest[..c] == [] && [e] + rest[..c] == [e];
    }
  }

  lemma {:induction false} PrefixCat(head: string, u: string, v: string)
    requires u <= v
    ensures head + u <= head + v
  {
    assert v == u + v[|u|..];
    assert head + v == (head + u) + v[|u|..];
  }

  lemma {:induction false} CommasLater(e: string, u: string)
    ensures Commas(e + ",") == Commas(e) + 1
    ensures Commas(e + ", " + u) == Commas(e) + 1 + Commas(u)
  {
    assert ","[1..] == [];
    CommasAppend(e, ",");
    assert (", " + u)[1..] == " " + u && (" " + u)[1..] == u;
    CommasAppend(e, ", " + u);
    assert e + ", " + u == e + (", " + u);
  }

  /** The entry that a prefix of the joined entries ends in or just before, and what is shown of it. */
  function Displayed(entries: seq<string>, t: string): (nat, string)
    requires entries != []
  {
    var e := entries[0];
    if |entries| == 1 || |t| <= |e| then (0, t)
    else if |t| == |e| + 1 then (1, "")
    else
      var (c, part) := Displayed(entries[1..], t[|e| + 2..]);
      (c + 1, part)
  }

  /** What is displayed holds no comma inside an entry. */
  predicate InnerCommaFree(entries: seq<string>, t: string)
    requires entries != []
  {
    var (c, part) := Displayed(entries, t);
    ',' !in part && forall i :: 0 <= i < c && i < |entries| ==> ',' !in entries[i]
  }

  lemma {:induction false} InnerLater(e: string, rest: seq<string>, u: string)
    requires rest != []
    ensures Displayed([e] + rest, e + ", " + u) == (Displayed(rest, u).0 + 1, Displayed(rest, u).1)
    ensures InnerCommaFree([e] + rest, e + ", " + u) <==> ',' !in e && InnerCommaFree(rest, u)
  {
    var entries, t := [e] + rest, e + ", " + u;
    assert entries[1..] == rest && t[|e| + 2..] == u && entries[0] == e;
    assert forall i :: 0 < i < |entries| ==> entries[i] == rest[i - 1];
    assert forall i :: 0 <= i < |rest| ==> rest[i] == entries[i + 1];
  }

  lemma {:induction false} InFirst(entries: seq<string>, t: string)
    requires entries != [] && t <= Join(entries) && (|entries| == 1 || |t| <= |entries[0]|)
    ensures t <= entries[0]
  {
    if |entries| > 1 {
      assert entries == [entries[0]] + entries[1..];
      JoinCons(entries[0], entries[1..]);
      assert t == (entries[0] + ", " + Join(entries[1..]))[..|t|] == entries[0][..|t|];
    }
  }

  /** A prefix has a comma for each entry shown before the last, and one for each comma inside what is shown. */
  lemma {:induction false} CommasShown(entries: seq<string>, t: string)
    requires entries != [] && t <= Join(entries)
    ensures EndsIn(entries, t, Displayed(entries, t).0)
    ensures Commas(t) >= Displayed(entries, t).0
    ensures Commas(t) == Displayed(entries, t).0 <==> InnerCommaFree(entries, t)
    decreases |entries|, 1
  {
    var e := entries[0];
    assert entries[..1] == [e];
    if |entries| == 1 || |t| <= |e| {
      InFirst(entries, t);
      NoCommas(t);
    } else {
      CommasShownPast(entries, t);
    }
  }

  lemma {:induction false} CommasShownPast(entries: seq<string>, t: string)
    requires |entries| > 1 && t <= Join(entries) && |t| > |entries[0]|
    ensures EndsIn(entries, t, Displayed(entries, t).0)
    ensures Commas(t) >= Displayed(entries, t).0
    ensures Commas(t) == Displayed(entries, t).0 <==> InnerCommaFree(entries, t)
    decreases |entries|, 0
  {
    var e, rest := entries[0], entries[1..];
    assert entries == [e] + rest;
    JoinCons(e, rest);
    var u := SplitHead(e, Join(rest), t);
    CommasLater(e, u);
    NoCommas(e);
    if t == e + "," {
      TwoEntries(entries);
    } else {
      CommasShown(rest, u);
      EndsInLater(e, rest, u, Displayed(rest, u).0);
      InnerLater(e, rest, u);
    }
  }

  lemma {:induction false} JoinGrows(entries: seq<string>, i: nat, j: nat)
    requires i <= j <= |entries|
    ensures |Join(entries[..i])| <= |Join(entries[..j])|
  {
    if i > 0 {
      var e, rest := entries[0], entries[1..];
      assert entries[..i] == [e] + rest[..i - 1] && entries[..j] == [e] + rest[..j - 1];
      JoinGrows(rest, i - 1, j - 1);
      JoinLength(e, rest[..i - 1]);
      JoinLength(e, rest[..j - 1]);
      assert j > 1 && i == 1 ==> rest[..0] == [];
    }
  }

  lemma {:induction false} JoinLength(e: string, rest: seq<string>)
    ensures |Join([e] + rest)| == |e| + if rest == [] then 0 else 2 + |Join(rest)|
  {
    if rest == [] {
      assert [e] + rest == [e];
    } else {
      JoinCons(e, rest);
    }
  }

  /** A prefix ends in one entry only. */
  lemma {:induction false} EndsInOne(entries: seq<string>, t: string, c: nat, d: nat)
    requires EndsIn(entries, t, c) && EndsIn(entries, t, d)
    ensures c == d
  {
    if c < d {
      JoinGrows(entries, c + 1, d);
    } else if d < c {
      JoinGrows(entries, d + 1, c);
    }
  }

  /** With no commas in the entries, a prefix with c commas ends in the entry after the first c. */
  lemma {:induction false} PrefixOfEntries(entries: seq<string>, t: string)
    requires CommaFree(entries) && entries != [] && t <= Join(entries)
    ensures EndsIn(entries, t, Commas(t))
  {
    CommasShown(entries, t);
    DisplayedFree(entries, t);
  }

  lemma {:induction false} DisplayedFree(entries: seq<string>, t: string)
    requires CommaFree(entries) && entries != [] && t <= Join(entries)
    ensures InnerCommaFree(entries, t)
  {
    var e, rest := entries[0], entries[1..];
    assert entries == [e] + rest;
    if |entries| == 1 || |t| <= |e| {
      InFirst(entries, t);
      assert forall k :: 0 <= k < |t| ==> t[k] in e;
    } else {
      JoinCons(e, rest);
      var u := SplitHead(e, Join(rest), t);
      if t != e + "," {
        DisplayedFree(rest, u);
        InnerLater(e, rest, u);
      }
    }
  }

  lemma {:induction false} SplitHead(e: string, tail: string, t: string) returns (u: string)
    requires |t| > |e| && t <= e + ", " + tail
    ensures u <= tail
    ensures t == e + "," || t == e + ", " + u
  {
    var all := e + ", " + tail;
    assert t == all[..|t|];
    if |t| == |e| + 1 {
      u := "";
    } else {
      u := tail[..|t| - |e| - 2];
    }
  }

  lemma {:induction false} TwoEntries(entries: seq<string>)
    requires |entries| >= 2
    ensures EndsIn(entries, entries[0] + ",", 1)
  {
    var e := entries[0];
    assert entries[..1] == [e] && entries[..2] == [e] + [entries[1]];
    JoinCons(e, [entries[1]]);
    assert e + ", " + entries[1] == (e + ",") + (" " + entries[1]);
  }

  lemma {:induction false} LastChar(text: string)
    ensures EndsWith(text, ",") <==> text != [] && text[|text| - 1] == ','
    ensures EndsWith(text, ",") ==> text == StripComma(text) + ","
    ensures !EndsWith(text, ",") ==> text == StripComma(text)
  {
    if text != [] {
      assert text[|text| - 1..] == [text[|text| - 1]];
    }
  }

  /** The count is never too small, and it is that of the entries the text has begun to show if and only if no
  entry shown has a comma in its shown part. */
  lemma {:induction false} CountIsRightIff(entries: seq<string>, maxLen: nat, n: nat, kept: nat)
    requires entries != [] && CutAt(Join(entries), maxLen, n, kept)
    ensures var text := ShownText(Join(entries), kept);
      var (t, c) := (StripComma(text), Displayed(entries, StripComma(text)).0);
      && EndsIn(entries, t, c) && (forall d :: EndsIn(entries, t, d) ==> d == c)
      && Shown(text) >= c + 1
      && (Shown(text) == c + 1 <==> InnerCommaFree(entries, t))
  {
    var text := ShownText(Join(entries), kept);
    TextIsBounded(Join(entries), maxLen, n, kept);
    LastChar(text);
    var t := StripComma(text);
    assert t == Join(entries)[..|t|];
    CommasShown(entries, t);
    forall d | EndsIn(entries, t, d)
      ensures d == Displayed(entries, t).0
    {
      EndsInOne(entries, t, d, Displayed(entries, t).0);
    }
  }

  lemma {:induction false} AsciiLength(s: string)
    requires forall i :: 0 <= i < |s| ==> s[i] as int < 0x80
    ensures ByteLen(s) == |s|
  {
    if s != [] {
      AsciiLength(s[..|s| - 1]);
    }
  }

  function Repeat(c: char, n: nat): string {
    seq(n, _ => c)
  }

  const LONG: string := "A,B" + Repeat('x', 400) + "=set"
  const OTHER: string := "C" + Repeat('y', 200) + "=set"

  lemma {:induction false} LongEntries()
    ensures |LONG| == 407 && |OTHER| == 205
    ensures ',' !in OTHER && forall i :: 0 <= i < |LONG| ==> (LONG[i] == ',' <==> i == 1)
    ensures forall i :: 0 <= i < |LONG| ==> LONG[i] as int < 0x80
    ensures forall i :: 0 <= i < |OTHER| ==> OTHER[i] as int < 0x80
  {
  }

  lemma {:induction false} LongJoin()
    ensures Join([LONG, OTHER]) == LONG + ", " + OTHER
  {
    assert [LONG, OTHER] == [LONG] + [OTHER];
    JoinCons(LONG, [OTHER]);
  }

  lemma {:induction false} LongCut()
    ensures ByteLen(Join([LONG, OTHER])) == 614 && CutAt(Join([LONG, OTHER]), 512, 512, 408)
    ensures Join([LONG, OTHER])[..408] == LONG + ","
  {
    LongEntries();
    LongJoin();
    var s := Join([LONG, OTHER]);
    assert s == LONG + "," + " " + OTHER;
    forall i | 0 <= i <= |s|
      ensures ByteLen(s[..i]) == i
    {
      AsciiLength(s[..i]);
    }
    assert s[..614] == s;
    assert s[..408] == LONG + "," && s[408..512] == " " + OTHER[..103];
    assert CommaCut(s, 512, 512, 408);
  }

  lemma {:induction false} LongCommas()
    ensures Commas(LONG) == 1
  {
    LongEntries();
    var b := "B" + Repeat('x', 400) + "=set";
    assert LONG == ("A" + ",") + b;
    CommasLater("A", "");
    CommasAppend("A" + ",", b);
    NoCommas("A");
    assert forall i :: 0 <= i < |b| ==> b[i] == LONG[i + 2];
    NoCommas(b);
  }

  /** At the limit the program uses, a variable with a comma in its name is counted twice: of two changes one is
  shown, and none is said to be left out. */
  lemma {:induction false} CommaInKeyMiscounts()
    ensures var entries, text := [LONG, OTHER], LONG + ",";
      && ByteLen(Join(entries)) > MAX_ENV_CHANGES_SUMMARY_LEN
      && CutAt(Join(entries), MAX_ENV_CHANGES_SUMMARY_LEN, 512, 408)
      && ShownText(Join(entries), 408) == text
      && StripComma(text) == LONG && Displayed(entries, LONG) == (0, LONG) && Shown(text) == 2
      && Suffix(text, |entries|) == "..."
  {
    var text := LONG + ",";
    LongCut();
    assert TrimEnd(text) == text;
    assert StripComma(text) == LONG;
    LongCommas();
    assert !EndsWith(text, "...") by { assert text[|text| - 3..][2] == ','; }
  }

  /** For comma-free entries the count is that of the entries the text has begun to show; a text that ends in
  a comma shows its entries whole and leaves others out. */
  lemma {:induction false} CountIsExact(entries: seq<string>, maxLen: nat, n: nat, kept: nat)
    requires CommaFree(entries) && entries != [] && CutAt(Join(entries), maxLen, n, kept)
    ensures var text := ShownText(Join(entries), kept);
      && EndsIn(entries, StripComma(text), Shown(text) - 1)
      && (EndsWith(text, ",") ==> Shown(text) < |entries| && text == Join(entries[..Shown(text)]) + ",")
  {
    TextIsBounded(Join(entries), maxLen, n, kept);
    ExactText(entries, ShownText(Join(entries), kept));
  }

  lemma {:induction false} StripKeepsPrefix(text: string, all: string)
    requires text <= all
    ensures StripComma(text) <= all
  {
    LastChar(text);
    PrefixTrans(StripComma(text), text, all);
  }

  lemma {:induction false} ExactText(entries: seq<string>, text: string)
    requires CommaFree(entries) && entries != [] && text <= Join(entries)
    ensures EndsIn(entries, StripComma(text), Shown(text) - 1)
    ensures EndsWith(text, ",") ==> Shown(text) < |entries| && text == Join(entries[..Shown(text)]) + ","
  {
    StripKeepsPrefix(text, Join(entries));
    PrefixOfEntries(entries, StripComma(text));
    if EndsWith(text, ",") {
      EndsAtComma(entries, text);
    }
  }

  lemma {:induction false} EndsAtComma(entries: seq<string>, text: string)
    requires CommaFree(entries) && entries != [] && text <= Join(entries) && EndsWith(text, ",")
    requires EndsIn(entries, StripComma(text), Shown(text) - 1)
    ensures Shown(text) < |entries|
    ensures text == Join(entries[..Shown(text)]) + ","
  {
    var stripped := StripComma(text);
    LastChar(text);
    assert Commas(",") == 1 by { assert ","[1..] == []; }
    CommasAppend(stripped, ",");
    PrefixOfEntries(entries, text);
    SamePrefix(Join(entries[..Shown(text)]), stripped);
  }

  lemma {:induction false} SamePrefix(j: string, stripped: string)
    requires stripped <= j && j + "," <= stripped + ","
    ensures stripped == j
  {
    assert |j| <= |stripped|;
  }

  /** When the cut is at a comma, the first entries are shown whole, and what is shown and what the suffix
  counts make up all changes. */
  lemma {:induction false} CommaCutShowsWholeEntries(entries: seq<string>, maxLen: nat, n: nat, kept: nat)
    requires CommaFree(entries) && entries != [] && CutAt(Join(entries), maxLen, n, kept)
    requires CommaCut(Join(entries), maxLen, n, kept)
    ensures var text := ShownText(Join(entries), kept);
      var k := Shown(text);
      && 1 <= k < |entries| && text == Join(entries[..k]) + ","
      && Suffix(text, |entries|) == MoreText(|entries| - k)
      && k + ReadDecimal(Decimal(|entries| - k)) == |entries|
  {
    var s := Join(entries)[..kept];
    assert s[|s| - 1] == ',';
    LastChar(s);
    TrimAtComma(s);
    ExactText(entries, s);
    SuffixAtComma(s, |entries|);
    DecimalReadsBack(|entries| - Shown(s));
  }

  lemma {:induction false} TrimAtComma(s: string)
    requires s != [] && s[|s| - 1] == ','
    ensures TrimEnd(s) == s
  {
  }

  lemma {:induction false} SuffixAtComma(text: string, count: nat)
    requires EndsWith(text, ",") && count > Shown(text)
    ensures Suffix(text, count) == MoreText(count - Shown(text))
  {
  }
}
