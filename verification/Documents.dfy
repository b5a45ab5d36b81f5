/** The chunk records that the document chunkers emit. */
module Documents {

  /** Provenance of a chunk, by the way it was made. */
  datatype ChunkMeta =
    | HeaderMeta(h2: string, h3: string, source: string)
    | PageMeta(pages: seq<nat>)
    | FallbackMeta

  datatype DocumentChunk = DocumentChunk(id: string, content: string, meta: ChunkMeta)

  function Decimal(n: nat): (s: string)
    ensures s != ""
  {
    if n < 10 then [('0' as int + n) as char] else Decimal(n / 10) + [('0' as int + n % 10) as char]
  }

  function ChunkId(n: nat): string {
    "chunk-" + Decimal(n)
  }

  /** Different numbers print differently. */
  lemma {:induction false} DecimalInjective(m: nat, n: nat)
    requires Decimal(m) == Decimal(n)
    ensures m == n
    decreases m
  {
    var s, t := Decimal(m), Decimal(n);
    assert s[|s| - 1] == t[|t| - 1] && s[..|s| - 1] == t[..|t| - 1];
    assert m % 10 == n % 10;
    if m >= 10 && n >= 10 {
      assert s[..|s| - 1] == Decimal(m / 10) && t[..|t| - 1] == Decimal(n / 10);
      DecimalInjective(m / 10, n / 10);
    }
  }

  /** The number that a sequence of decimal digits stands for. */
  function ValueOf(digits: string): int {
    if digits == "" then 0 else 10 * ValueOf(digits[..|digits| - 1]) + (digits[|digits| - 1] as int - '0' as int)
  }

  /** Numbers are printed in decimal digits, without leading zeros. */
  lemma {:induction false} DecimalIs(n: nat)
    ensures ValueOf(Decimal(n)) == n && forall k :: 0 <= k < |Decimal(n)| ==> '0' <= Decimal(n)[k] <= '9'
    ensures n > 0 ==> Decimal(n)[0] != '0'
  {
    var s := Decimal(n);
    if n >= 10 {
      DecimalIs(n / 10);
      assert s[..|s| - 1] == Decimal(n / 10);
    } else {
      assert s[..0] == "";
    }
  }

  /** The ids are chunk-1, chunk-2, and so on, in output order. */
  ghost predicate NumberedFrom(chunks: seq<DocumentChunk>, first: nat) {
    forall k :: 0 <= k < |chunks| ==> chunks[k].id == ChunkId(first + k)
  }

  lemma IdsAreDistinct(chunks: seq<DocumentChunk>, first: nat, i: nat, j: nat)
    requires NumberedFrom(chunks, first) && i < |chunks| && j < |chunks| && chunks[i].id == chunks[j].id
    ensures i == j
  {
    assert ChunkId(first + i)[6..] == Decimal(first + i) && ChunkId(first + j)[6..] == Decimal(first + j);
    DecimalInjective(first + i, first + j);
  }
}
