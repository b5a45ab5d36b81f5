/**
 * Text is a sequence of symbols; white space is the ASCII white space of Go's `strings` package. Splitting, joining
 * and trimming are functions, with the laws that the chunkers rely on.
 */
module Text {
  import opened Wrappers

  predicate IsSpace(c: char) {
    c == ' ' || c == '\t' || c == '\n' || c == '\r' || c == '\U{0B}' || c == '\U{0C}'
  }

  /** White space and the punctuation that occurs in a chunk separator. */
  predicate Droppable(c: char) {
    IsSpace(c) || c == '.' || c == '?' || c == '!' || c == ';' || c == ','
  }

  /** The symbols of `s` that no splitter is allowed to lose, in order. */
  function Kept(s: string): string {
    if s == "" then "" else (if Droppable(s[0]) then "" else [s[0]]) + Kept(s[1..])
  }

  function TrimLeft(s: string): string {
    if s != "" && IsSpace(s[0]) then TrimLeft(s[1..]) else s
  }

  function TrimRight(s: string): string {
    if s != "" && IsSpace(s[|s| - 1]) then TrimRight(s[..|s| - 1]) else s
  }

  function TrimSpace(s: string): string {
    TrimRight(TrimLeft(s))
  }

  /** Neither end is white space. */
  predicate Trimmed(s: string) {
    s != "" ==> !IsSpace(s[0]) && !IsSpace(s[|s| - 1])
  }

  predicate HasPrefix(s: string, p: string) {
    p <= s
  }

  predicate IsSuffix(t: string, s: string) {
    |t| <= |s| && t == s[|s| - |t|..]
  }

  /** The last `n` symbols of `s`, or all of it. */
  function Tail(s: string, n: nat): (t: string)
    ensures |t| == if |s| <= n then |s| else n
    ensures IsSuffix(t, s)
  {
    if |s| <= n then s else s[|s| - n..]
  }

  function Repeat(c: char, n: nat): (s: string)
    ensures |s| == n && forall k :: 0 <= k < n ==> s[k] == c
  {
    seq(n, _ => c)
  }

  predicate OccursAt(s: string, sub: string, i: nat) {
    i + |sub| <= |s| && s[i..i + |sub|] == sub
  }

  /** The first position at or after `from` where `sub` occurs. */
  function Index(s: string, sub: string, from: nat): (r: Option<nat>)
    ensures r.Some? ==> from <= r.value && OccursAt(s, sub, r.value)
    ensures r.Some? ==> forall j :: from <= j < r.value ==> !OccursAt(s, sub, j)
    ensures r.None? ==> forall j :: from <= j ==> !OccursAt(s, sub, j)
    decreases |s| - from
  {
    if from + |sub| > |s| then None
    else if OccursAt(s, sub, from) then Some(from)
    else if from == |s| then None
    else Index(s, sub, from + 1)
  }

  predicate Contains(s: string, sub: string) {
    Index(s, sub, 0).Some?
  }

  /** Go's `strings.Split` for a non-empty separator. */
  function Split(s: string, sep: string): (parts: seq<string>)
    requires sep != ""
    ensures parts != []
    decreases |s|
  {
    var at := Index(s, sep, 0);
    if at.None? then [s] else [s[..at.value]] + Split(s[at.value + |sep|..], sep)
  }

  function Join(parts: seq<string>, sep: string): string {
    if parts == [] then ""
    else if |parts| == 1 then parts[0]
    else parts[0] + sep + Join(parts[1..], sep)
  }

  function Concat(parts: seq<string>): string {
    if parts == [] then "" else parts[0] + Concat(parts[1..])
  }

  function Flatten<T>(groups: seq<seq<T>>): seq<T> {
    if groups == [] then [] else groups[0] + Flatten(groups[1..])
  }

  lemma {:induction false} JoinSplit(s: string, sep: string)
    requires sep != ""
    ensures Join(Split(s, sep), sep) == s
    decreases |s|
  {
    var at := Index(s, sep, 0);
    if at.Some? {
      var rest := s[at.value + |sep|..];
      JoinSplit(rest, sep);
      assert Split(s, sep)[1..] == Split(rest, sep);
      assert s == s[..at.value] + sep + rest;
    }
  }

  /** No part contains the separator: for a one-symbol separator the split is complete. */
  lemma {:induction false} SplitParts(s: string, c: char, p: string)
    requires p in Split(s, [c])
    ensures c !in p
    decreases |s|
  {
    var at := Index(s, [c], 0);
    var end := if at.None? then |s| else at.value;
    forall j | 0 <= j < end ensures s[j] != c {
      assert !OccursAt(s, [c], j);
      assert s[j..j + 1] == [s[j]];
    }
    if at.Some? && p != s[..end] {
      SplitParts(s[end + 1..], c, p);
    }
  }

  lemma OccursFirst(s: string, sep: string)
    requires sep != ""
    ensures forall i: nat :: OccursAt(s, sep, i) ==> s[i] == sep[0]
  {
    forall i: nat | OccursAt(s, sep, i) ensures s[i] == sep[0] {
      assert s[i] == s[i..i + |sep|][0];
    }
  }

  lemma NotIn(s: string, sep: string)
    requires sep != "" && sep[0] !in s
    ensures Index(s, sep, 0) == None
  {
    OccursFirst(s, sep);
  }

  lemma FirstAt(a: string, sep: string, b: string)
    requires sep != "" && sep[0] !in a
    ensures Index(a + sep + b, sep, 0) == Some(|a|)
  {
    var s := a + sep + b;
    OccursFirst(s, sep);
    assert s[|a|..|a| + |sep|] == sep && OccursAt(s, sep, |a|);
    assert forall i :: 0 <= i < |a| ==> s[i] == a[i];
  }

  lemma SplitFirst(a: string, sep: string, b: string)
    requires sep != "" && sep[0] !in a
    ensures Split(a + sep + b, sep) == [a] + Split(b, sep)
  {
    var s := a + sep + b;
    FirstAt(a, sep, b);
    assert s[..|a|] == a && s[|a| + |sep|..] == b;
  }

  /** Splitting undoes joining when no part holds the symbol that the separator starts with. */
  lemma {:induction false} SplitJoin(parts: seq<string>, sep: string)
    requires parts != [] && sep != "" && forall k :: 0 <= k < |parts| ==> sep[0] !in parts[k]
    ensures Split(Join(parts, sep), sep) == parts
  {
    if |parts| == 1 {
      NotIn(parts[0], sep);
    } else {
      SplitJoin(parts[1..], sep);
      SplitFirst(parts[0], sep, Join(parts[1..], sep));
      assert parts == [parts[0]] + parts[1..];
    }
  }

  lemma Assoc<T>(a: seq<T>, b: seq<T>, c: seq<T>)
    ensures a + (b + c) == a + b + c
  {
  }

  lemma SliceOfDrop<T>(s: seq<T>, drop: nat, i: nat, j: nat)
    requires drop <= |s| && i <= j <= |s| - drop
    ensures s[drop..][i..j] == s[drop + i..drop + j]
  {
  }

  lemma {:induction false} ConcatAppend(a: seq<string>, b: seq<string>)
    ensures Concat(a + b) == Concat(a) + Concat(b)
  {
    if a == [] {
      assert a + b == b;
    } else {
      assert (a + b)[0] == a[0] && (a + b)[1..] == a[1..] + b;
      ConcatAppend(a[1..], b);
      Assoc(a[0], Concat(a[1..]), Concat(b));
    }
  }

  lemma {:induction false} JoinAppend(a: seq<string>, last: string, sep: string)
    requires a != []
    ensures Join(a + [last], sep) == Join(a, sep) + sep + last
  {
    assert (a + [last])[1..] == a[1..] + [last];
    if |a| > 1 {
      JoinAppend(a[1..], last, sep);
    }
  }

  lemma {:induction false} KeptAppend(a: string, b: string)
    ensures Kept(a + b) == Kept(a) + Kept(b)
  {
    if a == "" {
      assert a + b == b;
    } else {
      assert (a + b)[0] == a[0] && (a + b)[1..] == a[1..] + b;
      KeptAppend(a[1..], b);
      Assoc(if Droppable(a[0]) then "" else [a[0]], Kept(a[1..]), Kept(b));
    }
  }

  lemma {:induction false} KeptJoin(parts: seq<string>, sep: string)
    requires Kept(sep) == ""
    ensures Kept(Join(parts, sep)) == Kept(Concat(parts))
  {
    if parts == [] {
    } else if |parts| == 1 {
      assert Concat(parts) == parts[0] + Concat(parts[1..]) == parts[0];
    } else {
      var first, rest := parts[0], parts[1..];
      calc {
        Kept(Join(parts, sep));
        { KeptAppend(first + sep, Join(rest, sep)); }
        Kept(first + sep) + Kept(Join(rest, sep));
        { KeptAppend(first, sep); assert Kept(first) + "" == Kept(first); }
        Kept(first) + Kept(Join(rest, sep));
        { KeptJoin(rest, sep); }
        Kept(first) + Kept(Concat(rest));
        { KeptAppend(first, Concat(rest)); }
        Kept(Concat(parts));
      }
    }
  }

  lemma {:induction false} KeptTrimLeft(s: string)
    ensures Kept(TrimLeft(s)) == Kept(s)
    ensures TrimLeft(s) != "" ==> !IsSpace(TrimLeft(s)[0])
  {
    if s != "" && IsSpace(s[0]) {
      KeptTrimLeft(s[1..]);
    }
  }

  lemma {:induction false} KeptTrimRight(s: string)
    ensures Kept(TrimRight(s)) == Kept(s)
    ensures TrimRight(s) <= s
    ensures TrimRight(s) != "" ==> !IsSpace(TrimRight(s)[|TrimRight(s)| - 1])
  {
    if s != "" && IsSpace(s[|s| - 1]) {
      var front := s[..|s| - 1];
      KeptTrimRight(front);
      assert s == front + [s[|s| - 1]];
      KeptAppend(front, [s[|s| - 1]]);
    }
  }

  lemma TrimSpaceKeeps(s: string)
    ensures Kept(TrimSpace(s)) == Kept(s)
    ensures Trimmed(TrimSpace(s))
  {
    KeptTrimLeft(s);
    KeptTrimRight(TrimLeft(s));
  }

  lemma TrimmedIsFixed(s: string)
    requires Trimmed(s)
    ensures TrimSpace(s) == s
  {
  }

  // ---------- parts of a text ----------

  /** A slice contains no more than the whole. */
  lemma SliceIsFree(s: string, i: nat, j: nat, sub: string)
    requires i <= j <= |s| && !Contains(s, sub)
    ensures !Contains(s[i..j], sub)
  {
    forall k: nat | OccursAt(s[i..j], sub, k) ensures OccursAt(s, sub, i + k) {
      SliceOfSlice(s, i, j, k, k + |sub|);
    }
  }

  lemma SliceOfSlice<T>(s: seq<T>, i: nat, j: nat, a: nat, b: nat)
    requires i <= j <= |s| && a <= b <= j - i
    ensures s[i..j][a..b] == s[i + a..i + b]
  {
    var slice := s[i..j];
    assert forall k :: 0 <= k < b - a ==> slice[a..b][k] == slice[a + k] == s[i + a + k];
  }

  /** Each part of a split is a slice of the text, and none contains the separator. */
  lemma {:induction false} SplitPart(s: string, sep: string, k: nat) returns (i: nat, j: nat)
    requires sep != "" && k < |Split(s, sep)|
    ensures i <= j <= |s| && Split(s, sep)[k] == s[i..j] && !Contains(Split(s, sep)[k], sep)
    decreases |s|
  {
    var at := Index(s, sep, 0);
    if at.None? {
      i, j := 0, |s|;
      assert s[0..|s|] == s;
    } else if k == 0 {
      i, j := 0, at.value;
      FirstPartIsFree(s, sep, at.value);
    } else {
      var drop := at.value + |sep|;
      i, j := SplitPart(s[drop..], sep, k - 1);
      SliceOfDrop(s, drop, i, j);
      i, j := drop + i, drop + j;
    }
  }

  lemma FirstPartIsFree(s: string, sep: string, at: nat)
    requires sep != "" && at <= |s| && Index(s, sep, 0) == Some(at)
    ensures !Contains(s[..at], sep)
  {
    forall k: nat | OccursAt(s[..at], sep, k) ensures OccursAt(s, sep, k) && k < at {
      assert s[..at][k..k + |sep|] == s[k..k + |sep|];
    }
  }

  lemma {:induction false} TrimLeftSlice(s: string) returns (i: nat)
    ensures i <= |s| && TrimLeft(s) == s[i..] && forall k :: 0 <= k < i ==> IsSpace(s[k])
  {
    if s != "" && IsSpace(s[0]) {
      i := TrimLeftSlice(s[1..]);
      i := i + 1;
      assert s[1..][i - 1..] == s[i..];
      assert forall k :: 0 < k < i ==> s[k] == s[1..][k - 1];
    } else {
      i := 0;
    }
  }

  lemma {:induction false} TrimRightSlice(s: string) returns (j: nat)
    ensures j <= |s| && TrimRight(s) == s[..j] && forall k :: j <= k < |s| ==> IsSpace(s[k])
  {
    if s != "" && IsSpace(s[|s| - 1]) {
      j := TrimRightSlice(s[..|s| - 1]);
      assert s[..|s| - 1][..j] == s[..j];
      assert forall k :: j <= k < |s| - 1 ==> s[k] == s[..|s| - 1][k];
    } else {
      j := |s|;
    }
  }

  /** Trimming takes white space off both ends, all of it and nothing else. */
  lemma TrimSlice(s: string) returns (i: nat, j: nat)
    ensures i <= j <= |s| && TrimSpace(s) == s[i..j] && Trimmed(s[i..j])
    ensures forall k :: 0 <= k < i || j <= k < |s| ==> IsSpace(s[k])
  {
    i := TrimLeftSlice(s);
    var n := TrimRightSlice(s[i..]);
    j := i + n;
    assert s[i..][..n] == s[i..j];
    assert forall k :: j <= k < |s| ==> s[k] == s[i..][k - i];
    TrimSpaceKeeps(s);
  }
}
