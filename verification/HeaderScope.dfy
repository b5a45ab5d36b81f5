/** Headings in scope. */
module HeaderScope {
  // Every chunk of a header split knows the headings it is under.

  import opened Wrappers
  import opened MdHeaders

  // ---------- scope ----------

  /** Heading `h` is still open before line `e`: no later heading has its level or a smaller one. */
  predicate InScope(m: MdSplitter, lines: seq<string>, h: nat, e: nat)
    requires e <= |lines|
  {
    && h < e && m.Heading(lines, h).Some?
    && forall j :: h < j < e && m.Heading(lines, j).Some? ==> m.Level(lines, h) < m.Level(lines, j)
  }

  /** Open headings get strictly deeper from the bottom of the stack to its top. */
  predicate Deepening(m: MdSplitter, lines: seq<string>, open: seq<nat>)
    requires m.AreHeadings(lines, open, |lines|)
  {
    forall i, j :: 0 <= i < j < |open| ==> m.Level(lines, open[i]) < m.Level(lines, open[j])
  }

  lemma {:induction false} SurvivingAreShallower(m: MdSplitter, lines: seq<string>, open: seq<nat>, level: nat, k: nat)
    requires m.AreHeadings(lines, open, |lines|) && Deepening(m, lines, open) && k < |open|
    ensures k < m.Surviving(lines, open, level) <==> m.Level(lines, open[k]) < level
  {
    var last := |open| - 1;
    if m.Level(lines, open[last]) >= level {
      assert m.Surviving(lines, open, level) == m.Surviving(lines, open[..last], level);
      if k < last {
        assert open[..last][k] == open[k];
        SurvivingAreShallower(m, lines, open[..last], level, k);
      }
    } else {
      assert k < last ==> m.Level(lines, open[k]) < m.Level(lines, open[last]);
    }
  }

  /** A heading closes exactly the open headings that are not shallower. */
  lemma KeptAreShallower(m: MdSplitter, lines: seq<string>, open: seq<nat>, i: nat, h: nat)
    requires i < |lines| && m.Heading(lines, i).Some? && m.AreHeadings(lines, open, i) && Deepening(m, lines, open)
    ensures h in m.Kept(lines, open, i) <==> h in open && m.Level(lines, h) < m.Level(lines, i)
  {
    var kept := m.Kept(lines, open, i);
    if h in open {
      var k :| 0 <= k < |open| && open[k] == h;
      SurvivingAreShallower(m, lines, open, m.Level(lines, i), k);
      if k < |kept| {
        assert kept[k] == h;
      }
      if h in kept {
        var j :| 0 <= j < |kept| && kept[j] == h;
        SurvivingAreShallower(m, lines, open, m.Level(lines, i), j);
      }
    }
  }

  /** How one more line changes what is in scope. */
  lemma ScopeStep(m: MdSplitter, lines: seq<string>, h: nat, e: nat)
    requires 0 < e <= |lines|
    ensures InScope(m, lines, h, e) <==>
      if m.Heading(lines, e - 1).None? then InScope(m, lines, h, e - 1)
      else h == e - 1 || (InScope(m, lines, h, e - 1) && m.Level(lines, h) < m.Level(lines, e - 1))
  {
  }

  lemma OpenStep(m: MdSplitter, lines: seq<string>, i: nat)
    requires i < |lines|
    ensures m.Open(lines, i + 1)
      == if m.Heading(lines, i).None? then m.Open(lines, i) else m.Kept(lines, m.Open(lines, i), i) + [i]
  {
  }

  lemma EnteredStack(m: MdSplitter, lines: seq<string>, open: seq<nat>, i: nat, h: nat)
    requires i < |lines| && m.Heading(lines, i).Some? && m.AreHeadings(lines, open, i) && Deepening(m, lines, open)
    ensures h in m.Kept(lines, open, i) + [i] <==> h == i || (h in open && m.Level(lines, h) < m.Level(lines, i))
  {
    KeptAreShallower(m, lines, open, i, h);
  }

  /** One more line keeps the stack and the scope in agreement about heading `h`. */
  lemma StackStep(m: MdSplitter, lines: seq<string>, h: nat, i: nat)
    requires i < |lines| && Deepening(m, lines, m.Open(lines, i))
    requires h in m.Open(lines, i) <==> InScope(m, lines, h, i)
    ensures h in m.Open(lines, i + 1) <==> InScope(m, lines, h, i + 1)
  {
    ScopeStep(m, lines, h, i + 1);
    OpenStep(m, lines, i);
    if m.Heading(lines, i).Some? {
      EnteredStack(m, lines, m.Open(lines, i), i, h);
    }
  }

  /** Every line deepens or keeps the stack's order. */
  lemma DeepeningStep(m: MdSplitter, lines: seq<string>, i: nat)
    requires i < |lines| && Deepening(m, lines, m.Open(lines, i))
    ensures Deepening(m, lines, m.Open(lines, i + 1))
  {
    OpenStep(m, lines, i);
    if m.Heading(lines, i).Some? {
      EnterDeepens(m, lines, m.Open(lines, i), i);
    }
  }

  /** The stack holds exactly the headings in scope, each deeper than the one below it. */
  lemma {:induction false} StackIsScope(m: MdSplitter, lines: seq<string>, e: nat)
    requires e <= |lines|
    ensures Deepening(m, lines, m.Open(lines, e))
    ensures forall h: nat :: h in m.Open(lines, e) <==> InScope(m, lines, h, e)
  {
    if e > 0 {
      StackIsScope(m, lines, e - 1);
      DeepeningStep(m, lines, e - 1);
      forall h: nat ensures h in m.Open(lines, e) <==> InScope(m, lines, h, e) {
        StackStep(m, lines, h, e - 1);
      }
    }
  }

  lemma EnterDeepens(m: MdSplitter, lines: seq<string>, open: seq<nat>, i: nat)
    requires i < |lines| && m.Heading(lines, i).Some? && m.AreHeadings(lines, open, i) && Deepening(m, lines, open)
    ensures Deepening(m, lines, m.Kept(lines, open, i) + [i])
  {
    var kept := m.Kept(lines, open, i);
    forall k | 0 <= k < |kept| ensures m.Level(lines, kept[k]) < m.Level(lines, i) {
      assert kept[k] in kept;
      KeptAreShallower(m, lines, open, i, kept[k]);
    }
  }

  /** Different headers write different metadata keys. */
  predicate DistinctNames(m: MdSplitter) {
    forall a, b :: a in m.headers && b in m.headers && m.headers[a] == m.headers[b] ==> a == b
  }

  /** Some heading in scope has this name and this data. */
  ghost predicate ScopeSays(m: MdSplitter, lines: seq<string>, e: nat, name: string, data: string)
    requires e <= |lines|
  {
    exists h: nat :: InScope(m, lines, h, e) && m.Name(lines, h) == name && m.Data(lines, h) == data
  }

  /** The metadata before line `e` says exactly what the headings in scope say. */
  ghost predicate MetaIsScope(m: MdSplitter, lines: seq<string>, e: nat)
    requires e <= |lines|
  {
    forall name, data :: (name in m.Meta(lines, e) && m.Meta(lines, e)[name] == data)
        <==> ScopeSays(m, lines, e, name, data)
  }

  /** The map has the entry of heading `h`. */
  predicate HasEntry(m: MdSplitter, lines: seq<string>, h: nat, meta: map<string, string>)
    requires h < |lines| && m.Heading(lines, h).Some?
  {
    m.Name(lines, h) in meta && meta[m.Name(lines, h)] == m.Data(lines, h)
  }

  /** The stack and the map agree entry by entry. */
  predicate MapMatchesStack(m: MdSplitter, lines: seq<string>, open: seq<nat>, meta: map<string, string>)
    requires m.AreHeadings(lines, open, |lines|)
  {
    HasEntries(m, lines, open, meta) && meta.Keys <= m.Names(lines, open)
  }

  predicate HasEntries(m: MdSplitter, lines: seq<string>, open: seq<nat>, meta: map<string, string>)
    requires m.AreHeadings(lines, open, |lines|)
  {
    forall k :: 0 <= k < |open| ==> HasEntry(m, lines, open[k], meta)
  }

  /** Two open headings have different names. */
  lemma StackNamesDiffer(m: MdSplitter, lines: seq<string>, open: seq<nat>, i: nat, j: nat)
    requires m.AreHeadings(lines, open, |lines|) && Deepening(m, lines, open) && DistinctNames(m)
    requires i < j < |open|
    ensures m.Name(lines, open[i]) != m.Name(lines, open[j])
  {
    assert m.Level(lines, open[i]) < m.Level(lines, open[j]);
    assert m.Heading(lines, open[i]) != m.Heading(lines, open[j]);
  }

  /** A heading that stays open does not have the name of the new one. */
  lemma KeptNameDiffers(m: MdSplitter, lines: seq<string>, open: seq<nat>, i: nat, k: nat)
    requires i < |lines| && m.Heading(lines, i).Some? && m.AreHeadings(lines, open, i) &&
      Deepening(m, lines, open) && DistinctNames(m)
    requires k < |m.Kept(lines, open, i)|
    ensures m.Name(lines, open[k]) != m.Name(lines, i)
  {
    SurvivingAreShallower(m, lines, open, m.Level(lines, i), k);
    assert m.Heading(lines, open[k]) != m.Heading(lines, i);
  }

  /** A heading that stays open does not have the name of a closed one. */
  lemma KeptNameStays(m: MdSplitter, lines: seq<string>, open: seq<nat>, i: nat, k: nat)
    requires i < |lines| && m.Heading(lines, i).Some? && m.AreHeadings(lines, open, i) &&
      Deepening(m, lines, open) && DistinctNames(m)
    requires k < |m.Kept(lines, open, i)|
    ensures m.Name(lines, open[k]) !in m.Names(lines, m.Closed(lines, open, i))
  {
    var kept, closed := m.Kept(lines, open, i), m.Closed(lines, open, i);
    forall j | 0 <= j < |closed| ensures m.Name(lines, closed[j]) != m.Name(lines, open[k]) {
      assert closed[j] == open[|kept| + j];
      StackNamesDiffer(m, lines, open, k, |kept| + j);
    }
  }

  lemma NameStays(m: MdSplitter, lines: seq<string>, open: seq<nat>, i: nat, name: string)
    requires i < |lines| && m.Heading(lines, i).Some? && m.AreHeadings(lines, open, i)
    requires name in m.Names(lines, open) && name !in m.Names(lines, m.Closed(lines, open, i))
    ensures name in m.Names(lines, m.Kept(lines, open, i) + [i])
  {
    var kept, closed := m.Kept(lines, open, i), m.Closed(lines, open, i);
    assert open == kept + closed;
    var k :| 0 <= k < |open| && m.Name(lines, open[k]) == name;
    if k < |kept| {
      assert (kept + [i])[k] == open[k];
    }
  }

  /** The map after heading `i`. */
  function Entered(m: MdSplitter, lines: seq<string>, open: seq<nat>, meta: map<string, string>,
                   i: nat): map<string, string>
    requires i < |lines| && m.Heading(lines, i).Some? && m.AreHeadings(lines, open, i)
  {
    (meta - m.Names(lines, m.Closed(lines, open, i)))[m.Name(lines, i) := m.Data(lines, i)]
  }

  lemma EntryStays(m: MdSplitter, lines: seq<string>, open: seq<nat>, meta: map<string, string>, i: nat, k: nat)
    requires i < |lines| && m.Heading(lines, i).Some? && m.AreHeadings(lines, open, i) &&
      Deepening(m, lines, open) && DistinctNames(m)
    requires k < |m.Kept(lines, open, i)| && HasEntry(m, lines, open[k], meta)
    ensures HasEntry(m, lines, open[k], Entered(m, lines, open, meta, i))
  {
    KeptNameDiffers(m, lines, open, i, k);
    KeptNameStays(m, lines, open, i, k);
  }

  lemma EntriesFollow(m: MdSplitter, lines: seq<string>, open: seq<nat>, meta: map<string, string>, i: nat)
    requires i < |lines| && m.Heading(lines, i).Some? && m.AreHeadings(lines, open, i) &&
      Deepening(m, lines, open) && DistinctNames(m)
    requires HasEntries(m, lines, open, meta)
    ensures m.AreHeadings(lines, m.Kept(lines, open, i) + [i], |lines|)
    ensures HasEntries(m, lines, m.Kept(lines, open, i) + [i], Entered(m, lines, open, meta, i))
  {
    var kept := m.Kept(lines, open, i);
    forall k | 0 <= k < |kept| ensures HasEntry(m, lines, open[k], Entered(m, lines, open, meta, i)) {
      EntryStays(m, lines, open, meta, i, k);
    }
    assert HasEntry(m, lines, i, Entered(m, lines, open, meta, i));
  }

  lemma NamesFollow(m: MdSplitter, lines: seq<string>, open: seq<nat>, meta: map<string, string>, i: nat, name: string)
    requires i < |lines| && m.Heading(lines, i).Some? && m.AreHeadings(lines, open, i)
    requires MapMatchesStack(m, lines, open, meta) && name in Entered(m, lines, open, meta, i)
    ensures name in m.Names(lines, m.Kept(lines, open, i) + [i])
  {
    var kept := m.Kept(lines, open, i);
    if name == m.Name(lines, i) {
      assert (kept + [i])[|kept|] == i;
    } else {
      NameStays(m, lines, open, i, name);
    }
  }

  /** Closing and opening headings keeps the map in step with the stack. */
  lemma EnterKeepsMatch(m: MdSplitter, lines: seq<string>, open: seq<nat>, meta: map<string, string>, i: nat)
    requires i < |lines| && m.Heading(lines, i).Some? && m.AreHeadings(lines, open, i) &&
      Deepening(m, lines, open) && DistinctNames(m)
    requires MapMatchesStack(m, lines, open, meta)
    ensures m.AreHeadings(lines, m.Kept(lines, open, i) + [i], |lines|)
    ensures MapMatchesStack(m, lines, m.Kept(lines, open, i) + [i], Entered(m, lines, open, meta, i))
  {
    EntriesFollow(m, lines, open, meta, i);
    forall name | name in Entered(m, lines, open, meta, i)
      ensures name in m.Names(lines, m.Kept(lines, open, i) + [i]) {
      NamesFollow(m, lines, open, meta, i, name);
    }
  }

  lemma MetaStep(m: MdSplitter, lines: seq<string>, i: nat)
    requires i < |lines|
    ensures m.Meta(lines, i + 1)
      == if m.Heading(lines, i).None? then m.Meta(lines, i)
      else Entered(m, lines, m.Open(lines, i), m.Meta(lines, i), i)
  {
  }

  /** The map and the stack agree before line `i`. */
  ghost predicate AgreeAt(m: MdSplitter, lines: seq<string>, i: nat)
    requires i <= |lines|
  {
    MapMatchesStack(m, lines, m.Open(lines, i), m.Meta(lines, i))
  }

  lemma MapStep(m: MdSplitter, lines: seq<string>, i: nat)
    requires i < |lines| && m.Heading(lines, i).Some? && DistinctNames(m) && AgreeAt(m, lines, i)
    requires Deepening(m, lines, m.Open(lines, i))
    ensures AgreeAt(m, lines, i + 1)
  {
    OpenStep(m, lines, i);
    MetaStep(m, lines, i);
    EnterKeepsMatch(m, lines, m.Open(lines, i), m.Meta(lines, i), i);
  }

  lemma PlainMapStep(m: MdSplitter, lines: seq<string>, i: nat)
    requires i < |lines| && m.Heading(lines, i).None? && AgreeAt(m, lines, i)
    ensures AgreeAt(m, lines, i + 1)
  {
    OpenStep(m, lines, i);
    MetaStep(m, lines, i);
  }

  lemma AgreeStep(m: MdSplitter, lines: seq<string>, i: nat)
    requires i < |lines| && DistinctNames(m) && AgreeAt(m, lines, i)
    ensures AgreeAt(m, lines, i + 1)
  {
    if m.Heading(lines, i).Some? {
      StackIsScope(m, lines, i);
      MapStep(m, lines, i);
    } else {
      PlainMapStep(m, lines, i);
    }
  }

  lemma AgreeAtStart(m: MdSplitter, lines: seq<string>)
    ensures AgreeAt(m, lines, 0)
  {
  }

  lemma MapFollowsStack(m: MdSplitter, lines: seq<string>, e: nat)
    requires e <= |lines| && DistinctNames(m)
    ensures AgreeAt(m, lines, e)
  {
    AgreeAtStart(m, lines);
    for i := 0 to e
      invariant AgreeAt(m, lines, i)
    {
      AgreeStep(m, lines, i);
    }
  }

  /** With distinct names, metadata is scope, for every text and every position in it. */
  lemma MetadataIsScope(m: MdSplitter, lines: seq<string>, e: nat)
    requires e <= |lines| && DistinctNames(m)
    ensures MetaIsScope(m, lines, e)
  {
    var open, meta := m.Open(lines, e), m.Meta(lines, e);
    StackIsScope(m, lines, e);
    MapFollowsStack(m, lines, e);
    forall name, data ensures (name in meta && meta[name] == data) <==> ScopeSays(m, lines, e, name, data) {
      if name in meta && meta[name] == data {
        var k :| 0 <= k < |open| && m.Name(lines, open[k]) == name;
        assert open[k] in open;
        assert InScope(m, lines, open[k], e);
      }
      if ScopeSays(m, lines, e, name, data) {
        var h: nat :| InScope(m, lines, h, e) && m.Name(lines, h) == name && m.Data(lines, h) == data;
        assert h in open;
        var k :| 0 <= k < |open| && open[k] == h;
      }
    }
  }
}
