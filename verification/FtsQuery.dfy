/** The full-text query printer. */
module FtsQuery {
  // From `sqlite_keyword_index.go`, with a reader for what it prints.

  import opened Wrappers
  import opened Sorting
  import opened Text

  // ---------- words ----------

  predicate NoSpace(s: string) {
    forall c :: c in s ==> !IsSpace(c)
  }

  /** The longest prefix without white space. */
  function FirstWord(s: string): (w: string)
    ensures w <= s && NoSpace(w)
    ensures |w| < |s| ==> IsSpace(s[|w|])
  {
    if s == "" || IsSpace(s[0]) then "" else [s[0]] + FirstWord(s[1..])
  }

  /** Go's `strings.Fields`: the runs of symbols that are not white space. */
  function Fields(s: string): seq<string>
    decreases |s|
  {
    if s == "" then []
    else if IsSpace(s[0]) then Fields(s[1..])
    else [FirstWord(s)] + Fields(s[|FirstWord(s)|..])
  }

  predicate ProperWord(w: string) {
    w != "" && NoSpace(w)
  }

  lemma {:induction false} FieldsAreProper(s: string, w: string)
    requires w in Fields(s)
    ensures ProperWord(w)
    decreases |s|
  {
    if IsSpace(s[0]) {
      FieldsAreProper(s[1..], w);
    } else if w != FirstWord(s) {
      FieldsAreProper(s[|FirstWord(s)|..], w);
    }
  }

  lemma {:induction false} FirstWordOf(w: string, rest: string)
    requires NoSpace(w) && (rest != "" ==> IsSpace(rest[0]))
    ensures FirstWord(w + rest) == w
  {
    if w == "" {
      assert w + rest == rest;
    } else {
      assert (w + rest)[1..] == w[1..] + rest;
      FirstWordOf(w[1..], rest);
    }
  }

  lemma FieldsOfWord(w: string, rest: string)
    requires ProperWord(w) && (rest != "" ==> IsSpace(rest[0]))
    ensures Fields(w + rest) == [w] + Fields(rest)
  {
    FirstWordOf(w, rest);
    assert (w + rest)[0] == w[0] && (w + rest)[|w|..] == rest;
  }

  /** Splitting words that were joined by a space yields the words. */
  lemma {:induction false} FieldsOfJoin(words: seq<string>)
    requires forall w :: w in words ==> ProperWord(w)
    ensures Fields(Join(words, " ")) == words
  {
    if |words| == 1 {
      FieldsOfWord(words[0], "");
      assert words[0] + "" == words[0];
    } else if |words| > 1 {
      var rest := " " + Join(words[1..], " ");
      FieldsOfJoin(words[1..]);
      assert rest[1..] == Join(words[1..], " ");
      FieldsOfWord(words[0], rest);
      Assoc(words[0], " ", Join(words[1..], " "));
    }
  }

  lemma {:induction false} FieldsTrimLeft(s: string)
    ensures Fields(TrimLeft(s)) == Fields(s)
  {
    if s != "" && IsSpace(s[0]) {
      FieldsTrimLeft(s[1..]);
    }
  }

  lemma FirstWordOfPrefix(s: string, c: char)
    requires IsSpace(c)
    ensures FirstWord(s + [c]) == FirstWord(s)
  {
    var w := FirstWord(s);
    assert s + [c] == w + (s[|w|..] + [c]);
    FirstWordOf(w, s[|w|..] + [c]);
  }

  lemma {:induction false} FieldsDropLast(s: string, c: char)
    requires IsSpace(c)
    ensures Fields(s + [c]) == Fields(s)
    decreases |s|
  {
    if s == "" {
      assert s + [c] == [c];
      assert [c][1..] == "";
    } else if IsSpace(s[0]) {
      assert (s + [c])[1..] == s[1..] + [c];
      FieldsDropLast(s[1..], c);
    } else {
      FirstWordOfPrefix(s, c);
      var n := |FirstWord(s)|;
      assert (s + [c])[n..] == s[n..] + [c];
      FieldsDropLast(s[n..], c);
    }
  }

  lemma {:induction false} FieldsTrimRight(s: string)
    ensures Fields(TrimRight(s)) == Fields(s)
  {
    if s != "" && IsSpace(s[|s| - 1]) {
      FieldsTrimRight(s[..|s| - 1]);
      FieldsDropLast(s[..|s| - 1], s[|s| - 1]);
      assert s == s[..|s| - 1] + [s[|s| - 1]];
    }
  }

  lemma FieldsTrimSpace(s: string)
    ensures Fields(TrimSpace(s)) == Fields(s)
  {
    FieldsTrimLeft(s);
    FieldsTrimRight(TrimLeft(s));
  }

  lemma ProperIsTrimmed(w: string)
    requires ProperWord(w)
    ensures TrimSpace(w) == w
  {
    TrimmedIsFixed(w);
  }

  // ---------- the printer ----------

  const OR: string := " OR "

  /** Every double quote becomes two. */
  function Escape(w: string): string {
    if w == "" then "" else (if w[0] == '"' then "\"\"" else [w[0]]) + Escape(w[1..])
  }

  function Quote(w: string): string {
    "\"" + Escape(w) + "\""
  }

  function QuoteAll(words: seq<string>): (r: seq<string>)
    ensures |r| == |words| && forall k :: 0 <= k < |r| ==> r[k] == Quote(words[k])
  {
    seq(|words|, k requires 0 <= k < |words| => Quote(words[k]))
  }

  /** The order of Go's `sort.Strings`. */
  predicate NotAfter(a: string, b: string) {
    a == "" || (b != "" && (a[0] < b[0] || (a[0] == b[0] && NotAfter(a[1..], b[1..]))))
  }

  const ALPHABETIC: (string, string) -> bool := NotAfter

  lemma {:induction false} NotAfterTotal(a: string, b: string)
    ensures NotAfter(a, b) || NotAfter(b, a)
  {
    if a != "" && b != "" && a[0] == b[0] {
      NotAfterTotal(a[1..], b[1..]);
    }
  }

  lemma {:induction false} NotAfterTransitive(a: string, b: string, c: string)
    requires NotAfter(a, b) && NotAfter(b, c)
    ensures NotAfter(a, c)
  {
    if a != "" && a[0] == b[0] == c[0] {
      NotAfterTransitive(a[1..], b[1..], c[1..]);
    }
  }

  lemma {:induction false} NotAfterAntisymmetric(a: string, b: string)
    requires NotAfter(a, b) && NotAfter(b, a)
    ensures a == b
  {
    if a != "" {
      NotAfterAntisymmetric(a[1..], b[1..]);
      assert a == [a[0]] + a[1..] && b == [b[0]] + b[1..];
    }
  }

  lemma AlphabeticIsOrder()
    ensures TotalPreorder(ALPHABETIC)
    ensures forall x, y :: ALPHABETIC(x, y) && ALPHABETIC(y, x) ==> x == y
  {
    forall x, y ensures ALPHABETIC(x, y) || ALPHABETIC(y, x) {
      NotAfterTotal(x, y);
    }
    forall x, y, z | ALPHABETIC(x, y) && ALPHABETIC(y, z) ensures ALPHABETIC(x, z) {
      NotAfterTransitive(x, y, z);
    }
    forall x, y | ALPHABETIC(x, y) && ALPHABETIC(y, x) ensures x == y {
      NotAfterAntisymmetric(x, y);
    }
  }

  function Printed(query: string): string {
    Join(Sort(QuoteAll(Fields(query)), ALPHABETIC), OR)
  }

  method SqliteFTSQuery(query: string) returns (out: string)
    ensures out == Printed(query)
  {
    FieldsTrimSpace(query);
    var words := Fields(TrimSpace(query));
    var quoted: seq<string> := [];
    for i := 0 to |words|
      invariant quoted == QuoteAll(words[..i])
    {
      FieldsAreProper(query, words[i]);
      ProperIsTrimmed(words[i]);
      var word := TrimSpace(words[i]);
      if word == "" {
        continue;
      }
      quoted := quoted + [Quote(word)];
    }
    assert words[..|words|] == words;
    quoted := Sort(quoted, ALPHABETIC);
    out := Join(quoted, OR);
  }

  // ---------- the reader ----------

  /** What stands before the closing quote, and what follows it. */
  datatype Token = Token(word: string, rest: string)

  /** Reads a quoted string whose opening quote is gone; two quotes stand for one. */
  function ReadQuoted(s: string): (r: Option<Token>)
    ensures r.Some? ==> |r.value.rest| < |s|
    decreases |s|
  {
    if s == "" then None
    else if s[0] == '"' && (|s| == 1 || s[1] != '"') then Some(Token("", s[1..]))
    else
      var used := if s[0] == '"' then 2 else 1;
      match ReadQuoted(s[used..])
      case None => None
      case Some(t) => Some(Token([s[0]] + t.word, t.rest))
  }

  /** Reads quoted strings that are joined by OR, at least one. */
  function ReadTerms(s: string): Option<seq<string>>
    decreases |s|
  {
    if s == "" || s[0] != '"' then None
    else
      match ReadQuoted(s[1..])
      case None => None
      case Some(t) =>
        if t.rest == "" then Some([t.word])
        else if !(OR <= t.rest) then None
        else
          match ReadTerms(t.rest[|OR|..])
          case None => None
          case Some(words) => Some([t.word] + words)
  }

  function Read(s: string): Option<seq<string>> {
    if s == "" then Some([]) else ReadTerms(s)
  }

  lemma ReadPlain(c: char, tail: string)
    requires c != '"'
    ensures ReadQuoted([c] + tail) == Prepend(c, ReadQuoted(tail))
  {
    assert ([c] + tail)[1..] == tail;
  }

  lemma ReadDoubled(tail: string)
    ensures ReadQuoted("\"\"" + tail) == Prepend('"', ReadQuoted(tail))
  {
    assert ("\"\"" + tail)[2..] == tail;
  }

  function Prepend(c: char, r: Option<Token>): Option<Token> {
    if r.None? then None else Some(Token([c] + r.value.word, r.value.rest))
  }

  lemma {:induction false} ReadEscaped(w: string, rest: string)
    requires rest != "" ==> rest[0] != '"'
    ensures ReadQuoted(Escape(w) + ("\"" + rest)) == Some(Token(w, rest))
  {
    var closing := "\"" + rest;
    if w == "" {
      assert Escape(w) + closing == closing;
      assert closing[1..] == rest;
    } else {
      ReadEscaped(w[1..], rest);
      assert w == [w[0]] + w[1..];
      if w[0] == '"' {
        Assoc("\"\"", Escape(w[1..]), closing);
        ReadDoubled(Escape(w[1..]) + closing);
      } else {
        Assoc([w[0]], Escape(w[1..]), closing);
        ReadPlain(w[0], Escape(w[1..]) + closing);
      }
    }
  }

  /** Reading undoes printing, for any words at all: none can end its quotes or pass for an operator. */
  lemma {:induction false} ReadPrinted(words: seq<string>)
    ensures Read(Join(QuoteAll(words), OR)) == Some(words)
  {
    if words != [] {
      ReadPrintedTerms(words);
      JoinStarts(words);
    }
  }

  lemma JoinStarts(words: seq<string>)
    requires words != []
    ensures Join(QuoteAll(words), OR) != "" && Join(QuoteAll(words), OR)[0] == '"'
  {
    assert Quote(words[0])[0] == '"';
  }

  lemma ReadOne(w: string)
    ensures ReadTerms(Quote(w)) == Some([w])
  {
    ReadEscaped(w, "");
    assert Quote(w)[1..] == Escape(w) + ("\"" + "");
  }

  lemma QuoteFirst(w: string, rest: string)
    ensures Quote(w) + rest != "" && (Quote(w) + rest)[0] == '"'
    ensures (Quote(w) + rest)[1..] == Escape(w) + ("\"" + rest)
  {
  }

  lemma ReadStep(s: string, w: string, more: string)
    requires s != "" && s[0] == '"' && ReadQuoted(s[1..]) == Some(Token(w, OR + more)) && ReadTerms(more).Some?
    ensures ReadTerms(s) == Some([w] + ReadTerms(more).value)
  {
    assert (OR + more)[|OR|..] == more;
  }

  lemma ReadFirst(w: string, more: string)
    requires ReadTerms(more).Some?
    ensures ReadTerms(Quote(w) + OR + more) == Some([w] + ReadTerms(more).value)
  {
    Assoc(Quote(w), OR, more);
    QuoteFirst(w, OR + more);
    ReadEscaped(w, OR + more);
    ReadStep(Quote(w) + (OR + more), w, more);
  }

  lemma {:induction false} ReadPrintedTerms(words: seq<string>)
    requires words != []
    ensures ReadTerms(Join(QuoteAll(words), OR)) == Some(words)
  {
    if |words| == 1 {
      ReadOne(words[0]);
      assert words == [words[0]];
    } else {
      assert QuoteAll(words)[1..] == QuoteAll(words[1..]);
      ReadPrintedTerms(words[1..]);
      ReadFirst(words[0], Join(QuoteAll(words[1..]), OR));
      assert words == [words[0]] + words[1..];
    }
  }

  // ---------- sorting the quoted words ----------

  function Unquote(q: string): string {
    match Read(q)
    case Some(words) => if words == [] then "" else words[0]
    case None => ""
  }

  lemma UnquoteQuote(w: string)
    ensures Unquote(Quote(w)) == w
  {
    ReadPrinted([w]);
    assert QuoteAll([w]) == [Quote(w)];
  }

  lemma {:induction false} QuoteAllCount(words: seq<string>, w: string)
    ensures multiset(QuoteAll(words))[Quote(w)] == multiset(words)[w]
  {
    if words != [] {
      var front, last := words[..|words| - 1], words[|words| - 1];
      QuoteAllCount(front, w);
      assert words == front + [last];
      assert QuoteAll(words) == QuoteAll(front) + [Quote(last)];
      UnquoteQuote(w);
      UnquoteQuote(last);
    }
  }

  /** Sorting the quoted words amounts to quoting a permutation of the words. */
  lemma SortedWords(words: seq<string>) returns (sorted: seq<string>)
    ensures Sort(QuoteAll(words), ALPHABETIC) == QuoteAll(sorted) && multiset(sorted) == multiset(words)
  {
    var q := Sort(QuoteAll(words), ALPHABETIC);
    AlphabeticIsOrder();
    SortKeeps(QuoteAll(words), ALPHABETIC);
    SameMembers(q, QuoteAll(words));
    sorted := seq(|q|, k requires 0 <= k < |q| => Unquote(q[k]));
    forall k | 0 <= k < |q| ensures Quote(sorted[k]) == q[k] {
      assert q[k] in QuoteAll(words);
      var j :| 0 <= j < |words| && q[k] == Quote(words[j]);
      UnquoteQuote(words[j]);
    }
    assert QuoteAll(sorted) == q;
    forall w ensures multiset(sorted)[w] == multiset(words)[w] {
      QuoteAllCount(sorted, w);
      QuoteAllCount(words, w);
    }
  }

  /** Reading the printed query recovers its words, each as often as it occurs. */
  lemma PrintedReadsBack(query: string)
    ensures Read(Printed(query)).Some? && multiset(Read(Printed(query)).value) == multiset(Fields(query))
  {
    var sorted := SortedWords(Fields(query));
    ReadPrinted(sorted);
  }

  lemma SameWordsSamePrint(a: seq<string>, b: seq<string>)
    requires multiset(a) == multiset(b)
    ensures Sort(QuoteAll(a), ALPHABETIC) == Sort(QuoteAll(b), ALPHABETIC)
  {
    var p := SortedWords(a);
    var q := SortedWords(b);
    AlphabeticIsOrder();
    SortKeeps(QuoteAll(a), ALPHABETIC);
    SortKeeps(QuoteAll(b), ALPHABETIC);
    QuotedPermutation(p, q);
    SortedIsUnique(QuoteAll(p), QuoteAll(q), ALPHABETIC);
  }

  lemma {:induction false} QuotedPermutation(a: seq<string>, b: seq<string>)
    requires multiset(a) == multiset(b)
    ensures multiset(QuoteAll(a)) == multiset(QuoteAll(b))
  {
    forall q ensures multiset(QuoteAll(a))[q] == multiset(QuoteAll(b))[q] {
      if Quote(Unquote(q)) == q {
        QuoteAllCount(a, Unquote(q));
        QuoteAllCount(b, Unquote(q));
      } else {
        NotQuoted(a, q);
        NotQuoted(b, q);
      }
    }
  }

  lemma NotQuoted(words: seq<string>, q: string)
    requires Quote(Unquote(q)) != q
    ensures multiset(QuoteAll(words))[q] == 0
  {
    forall k | 0 <= k < |words| ensures QuoteAll(words)[k] != q {
      UnquoteQuote(words[k]);
    }
    assert q !in QuoteAll(words);
  }

  /** Two queries print alike exactly when they hold the same words, each equally often, in whatever order. */
  lemma PrintAlikeIff(a: string, b: string)
    ensures Printed(a) == Printed(b) <==> multiset(Fields(a)) == multiset(Fields(b))
  {
    PrintedReadsBack(a);
    PrintedReadsBack(b);
    if multiset(Fields(a)) == multiset(Fields(b)) {
      SameWordsSamePrint(Fields(a), Fields(b));
    }
  }

  // ---------- the printed order ----------

  /** `a` is a prefix of `b`, or smaller at the first difference. */
  ghost predicate NotAfterAtDifference(a: string, b: string) {
    exists d: nat :: d <= |a| && d <= |b| && a[..d] == b[..d] && (d == |a| || (d < |b| && a[d] < b[d]))
  }

  lemma {:induction false} FirstDifference(a: string, b: string)
    requires NotAfter(a, b)
    ensures NotAfterAtDifference(a, b)
  {
    if a == "" || a[0] < b[0] {
      assert a[..0] == b[..0];
    } else {
      FirstDifference(a[1..], b[1..]);
      var d: nat :| d <= |a[1..]| && d <= |b[1..]| && a[1..][..d] == b[1..][..d]
        && (d == |a[1..]| || (d < |b[1..]| && a[1..][d] < b[1..][d]));
      assert a[..d + 1] == [a[0]] + a[1..][..d] && b[..d + 1] == [b[0]] + b[1..][..d];
      assert d + 1 < |a| && d + 1 < |b| ==> a[1..][d] == a[d + 1] && b[1..][d] == b[d + 1];
    }
  }

  /** The query is printed as its quoted words in ascending order, with OR between them. */
  lemma PrintedAscends(query: string) returns (quoted: seq<string>)
    ensures Printed(query) == Join(quoted, " OR ")
    ensures multiset(quoted) == multiset(QuoteAll(Fields(query)))
    ensures forall i, j :: 0 <= i < j < |quoted| ==> NotAfterAtDifference(quoted[i], quoted[j])
  {
    quoted := Sort(QuoteAll(Fields(query)), ALPHABETIC);
    AlphabeticIsOrder();
    SortKeeps(QuoteAll(Fields(query)), ALPHABETIC);
    forall i, j | 0 <= i < j < |quoted| ensures NotAfterAtDifference(quoted[i], quoted[j]) {
      assert ALPHABETIC(quoted[i], quoted[j]);
      FirstDifference(quoted[i], quoted[j]);
    }
  }
}
