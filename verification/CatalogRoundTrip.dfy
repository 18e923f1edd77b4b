/**
 A printer for the documented catalogue layout, in which scalars may be written in any
 style and blank and comment lines stand between items, and the exact condition for the
 parser of cmd/slogen to read a printed catalogue back.
*/
module CatalogRoundTrip {
  import opened Wrappers
  import opened Strconv
  import opened GoStrings
  import opened Catalog
  import opened CatalogScalars
  import opened CatalogTags
  import opened CatalogLines

  // ---------------------------------------------------------------- the printer

  /** How the scalars and the tags of an item are written. */
  datatype Look = Look(
    name: Style, description: Style, good: Style, valid: Style, window: Style, owner: Style, tags: Style)

  /** An item, and the blank and comment lines above it. */
  datatype Entry = Entry(pad: seq<string>, slo: Slo, look: Look)

  /** A catalogue as it is written down. */
  datatype Doc = Doc(top: seq<string>, version: int, mid: seq<string>, entries: seq<Entry>)

  function Block(s: Slo, k: Look): seq<string> {
    [ITEM + Shown(s.name, k.name), DESCRIPTION + Shown(s.description, k.description), SLI,
     GOOD + Shown(s.sli.good, k.good), VALID + Shown(s.sli.valid, k.valid),
     OBJECTIVE + DecimalText(s.objective), WINDOW + Shown(s.window, k.window), OWNER + Shown(s.owner, k.owner),
     ShownLine(s.tags, k.tags)]
  }

  function EntryLines(es: seq<Entry>): seq<string> {
    if es == [] then []
    else
      var e := es[|es| - 1];
      EntryLines(es[..|es| - 1]) + (e.pad + Block(e.slo, e.look))
  }

  function HeadLines(d: Doc): seq<string> {
    d.top + (["version: " + IntText(d.version)] + (d.mid + ["slos:"]))
  }

  function PrintedLines(d: Doc): seq<string> {
    HeadLines(d) + EntryLines(d.entries)
  }

  function Print(d: Doc): string {
    Unlines(PrintedLines(d))
  }

  /** What the layout can hold: scalars that can be written in their style, and plain
      decimals. */
  predicate PrintableSlo(s: Slo, k: Look) {
    && Showable(s.name, k.name) && Showable(s.description, k.description)
    && Showable(s.sli.good, k.good) && Showable(s.sli.valid, k.valid)
    && Showable(s.window, k.window) && Showable(s.owner, k.owner)
    && AllDigits(s.objective.frac)
    && ShowableTags(s.tags, k.tags)
  }

  predicate SkippedLines(pad: seq<string>) {
    forall l :: l in pad ==> Skipped(l) && Whole(l)
  }

  predicate PrintableEntry(e: Entry) {
    SkippedLines(e.pad) && PrintableSlo(e.slo, e.look)
  }

  predicate Printable(d: Doc) {
    && SkippedLines(d.top) && SkippedLines(d.mid)
    && -0x8000_0000_0000_0000 <= d.version <= 0x7fff_ffff_ffff_ffff
    && forall e :: e in d.entries ==> PrintableEntry(e)
  }

  /** The number of the line item `k` starts on. */
  function LineOf(d: Doc, k: nat): nat
    requires k < |d.entries|
  {
    |d.top| + |d.mid| + 2 + |EntryLines(d.entries[..k])| + |d.entries[k].pad| + 1
  }

  /** The items with the lines they are printed on. */
  function Numbered(d: Doc): (r: seq<Slo>)
    ensures |r| == |d.entries|
  {
    seq(|d.entries|, k requires 0 <= k < |d.entries| => d.entries[k].slo.(line := LineOf(d, k)))
  }

  /** The tags that are read from an entry's tags line, if any are. */
  function TagsOf(e: Entry): Option<seq<string>> {
    LineRead(ShownLine(e.slo.tags, e.look.tags))
  }

  /** The items with their lines and the tags that are read. */
  function AsRead(d: Doc): (r: seq<Slo>)
    ensures |r| == |d.entries|
  {
    seq(|d.entries|, k requires 0 <= k < |d.entries| => ReadItem(d, k))
  }

  function ReadItem(d: Doc, k: nat): Slo
    requires k < |d.entries|
  {
    WithTags(d.entries[k]).(line := LineOf(d, k))
  }

  function WithTags(e: Entry): Slo {
    e.slo.(tags := match TagsOf(e) case None => [] case Some(tags) => tags)
  }

  predicate Legible(es: seq<Entry>) {
    forall e :: e in es ==> TagsOf(e).Some?
  }

  // ---------------------------------------------------------------- the lines of an item

  lemma OneMore(lines: seq<string>, l: string, st: State)
    requires AllLines(lines) == Ok(st) && OneLine(st, l, |lines| + 1).Ok?
    ensures AllLines(lines + [l]) == Ok(OneLine(st, l, |lines| + 1).value)
  {
    NextLine(lines, l, st);
  }

  lemma NextLine(lines: seq<string>, l: string, st: State)
    requires AllLines(lines) == Ok(st)
    ensures OneLine(st, l, |lines| + 1).Ok? ==> AllLines(lines + [l]) == Ok(OneLine(st, l, |lines| + 1).value)
    ensures OneLine(st, l, |lines| + 1).Err? ==> AllLines(lines + [l]).Err?
  {
    hide OneLine;
    assert (lines + [l])[..|lines|] == lines;
  }

  /** Blank and comment lines leave the state alone. */
  lemma {:induction false} PadRead(lines: seq<string>, pad: seq<string>, st: State)
    requires AllLines(lines) == Ok(st) && SkippedLines(pad)
    ensures AllLines(lines + pad) == Ok(st)
    decreases |pad|
  {
    hide OneLine, AllLines, Skipped, Whole;
    if pad == [] {
      assert lines + pad == lines;
    } else {
      var k := |pad| - 1;
      PadRead(lines, pad[..k], st);
      assert pad[k] in pad;
      SkippedLine(st, pad[k], |lines + pad[..k]| + 1);
      OneMore(lines + pad[..k], pad[k], st);
      assert lines + pad[..k] + [pad[k]] == lines + pad;
    }
  }

  /** The state after a printed item: the item stands as the current one. */
  function Opened(st: State, s: Slo): State {
    State(st.version, if st.current.Some? then st.slos + [st.current.value] else st.slos,
          st.versionSeen, true, Some(s), false)
  }

  lemma FirstRead(lines: seq<string>, st: State, s: Slo, k: Look)
    requires AllLines(lines) == Ok(st) && st.inSLOs && PrintableSlo(s, k)
    ensures |Block(s, k)| == 9
    ensures AllLines(lines + [Block(s, k)[0]]) == Ok(Opened(st, NewSlo(s.name, |lines| + 1)))
  {
    hide OneLine, Shown, Showable, ShownLine, DecimalText, AllLines;
    NameLine(st, s.name, k.name, |lines| + 1);
    OneMore(lines, Block(s, k)[0], st);
  }

  /** The nine lines of one item. */
  lemma BlockRead(lines: seq<string>, st: State, e: Entry)
    requires AllLines(lines) == Ok(st) && st.inSLOs && PrintableSlo(e.slo, e.look)
    ensures TagsOf(e).Some? ==>
      AllLines(lines + Block(e.slo, e.look)) == Ok(Opened(st, WithTags(e).(line := |lines| + 1)))
    ensures TagsOf(e) == None ==> AllLines(lines + Block(e.slo, e.look)).Err?
  {
    hide Block, AllLines, PrintableSlo, TagsOf;
    var s, k := e.slo, e.look;
    var b := Block(s, k);
    FirstRead(lines, st, s, k);
    var s0 := Opened(st, NewSlo(s.name, |lines| + 1));
    HalfRead(lines + [b[0]], s0, s, k);
    var c1 := s0.current.value.(description := s.description, sli := s.sli);
    var l5 := lines + [b[0]] + [b[1]] + [b[2]] + [b[3]] + [b[4]];
    RestRead(l5, s0.(current := Some(c1), inSLI := true), e);
    Nine(lines, b);
  }

  lemma Nine(lines: seq<string>, b: seq<string>)
    requires |b| == 9
    ensures lines + [b[0]] + [b[1]] + [b[2]] + [b[3]] + [b[4]] + [b[5]] + [b[6]] + [b[7]] + [b[8]] == lines + b
  {
  }

  lemma HalfRead(lines: seq<string>, st: State, s: Slo, k: Look)
    requires AllLines(lines) == Ok(st) && st.inSLOs && st.current.Some? && PrintableSlo(s, k)
    ensures |Block(s, k)| == 9
    ensures var b := Block(s, k);
      AllLines(lines + [b[1]] + [b[2]] + [b[3]] + [b[4]]) ==
      Ok(st.(current := Some(st.current.value.(description := s.description, sli := s.sli)), inSLI := true))
  {
    hide OneLine, Shown, Showable, ShownLine, DecimalText, AllLines, ShowableTags;
    var b, n, c := Block(s, k), |lines| + 1, st.current.value;
    assert b[1] == "    " + ("description" + ": ") + Shown(s.description, k.description);
    ScalarField(st, "description", s.description, k.description, n);
    OneMore(lines, b[1], st);
    var s1 := st.(current := Some(c.(description := s.description)), inSLI := false);
    SliHead(s1, n + 1);
    OneMore(lines + [b[1]], b[2], s1);
    var s2 := s1.(inSLI := true);
    assert b[3] == "      " + ("good_events" + ": ") + Shown(s.sli.good, k.good);
    SliField(s2, "good_events", s.sli.good, k.good, n + 2);
    OneMore(lines + [b[1]] + [b[2]], b[3], s2);
    var s3 := s2.(current := Some(s2.current.value.(sli := c.sli.(good := s.sli.good))));
    assert b[4] == "      " + ("valid_events" + ": ") + Shown(s.sli.valid, k.valid);
    SliField(s3, "valid_events", s.sli.valid, k.valid, n + 3);
    OneMore(lines + [b[1]] + [b[2]] + [b[3]], b[4], s3);
  }

  lemma RestRead(lines: seq<string>, st: State, e: Entry)
    requires AllLines(lines) == Ok(st) && st.inSLOs && st.current.Some? && PrintableSlo(e.slo, e.look)
    ensures |Block(e.slo, e.look)| == 9
    ensures var b, s := Block(e.slo, e.look), e.slo;
      && (TagsOf(e).Some? ==>
        AllLines(lines + [b[5]] + [b[6]] + [b[7]] + [b[8]]) ==
        Ok(st.(current := Some(st.current.value.(objective := s.objective, window := s.window,
          owner := s.owner, tags := WithTags(e).tags)), inSLI := false)))
      && (TagsOf(e) == None ==> AllLines(lines + [b[5]] + [b[6]] + [b[7]] + [b[8]]).Err?)
  {
    hide OneLine, Shown, Showable, ShownLine, LineRead, DecimalText, AllLines, ShowableTags;
    var s, k := e.slo, e.look;
    var b, n, c := Block(s, k), |lines| + 1, st.current.value;
    ObjectiveLine(st, s.objective, n);
    OneMore(lines, b[5], st);
    var s1 := st.(current := Some(c.(objective := s.objective)), inSLI := false);
    assert b[6] == "    " + ("window" + ": ") + Shown(s.window, k.window);
    ScalarField(s1, "window", s.window, k.window, n + 1);
    OneMore(lines + [b[5]], b[6], s1);
    var s2 := s1.(current := Some(s1.current.value.(window := s.window)));
    assert b[7] == "    " + ("owner" + ": ") + Shown(s.owner, k.owner);
    ScalarField(s2, "owner", s.owner, k.owner, n + 2);
    OneMore(lines + [b[5]] + [b[6]], b[7], s2);
    var s3 := s2.(current := Some(s2.current.value.(owner := s.owner)));
    TagsLineRead(s3, s.tags, k.tags, n + 3);
    NextLine(lines + [b[5]] + [b[6]] + [b[7]], b[8], s3);
  }

  // ---------------------------------------------------------------- the whole text

  /** The state after these items. */
  function StateAfter(version: int, done: seq<Slo>): State {
    if done == [] then State(version, [], true, true, None, false)
    else State(version, done[..|done| - 1], true, true, Some(done[|done| - 1]), false)
  }

  lemma StateOpened(version: int, done: seq<Slo>)
    requires done != []
    ensures StateAfter(version, done) == Opened(StateAfter(version, done[..|done| - 1]), done[|done| - 1])
  {
    var fewer := done[..|done| - 1];
    assert fewer != [] ==> fewer[..|fewer| - 1] + [fewer[|fewer| - 1]] == fewer;
  }

  /** The catalogue without its last item. */
  function Fewer(d: Doc): Doc
    requires d.entries != []
  {
    d.(entries := d.entries[..|d.entries| - 1])
  }

  lemma FewerRead(d: Doc)
    requires d.entries != []
    ensures AsRead(d)[..|d.entries| - 1] == AsRead(Fewer(d))
    ensures Legible(d.entries) <==> Legible(Fewer(d).entries) && TagsOf(d.entries[|d.entries| - 1]).Some?
  {
    hide TagsOf;
    var k := |d.entries| - 1;
    assert d.entries == Fewer(d).entries + [d.entries[k]];
    forall i | 0 <= i < k
      ensures ReadItem(d, i) == ReadItem(Fewer(d), i)
    {
      assert d.entries[..k][..i] == d.entries[..i];
    }
  }

  lemma LinesSplit(d: Doc)
    requires d.entries != []
    ensures var e := d.entries[|d.entries| - 1];
      PrintedLines(d) == PrintedLines(Fewer(d)) + (e.pad + Block(e.slo, e.look))
  {
    hide Block, IntText;
  }

  lemma {:induction false} LinesRead(d: Doc)
    requires Printable(d)
    ensures Legible(d.entries) ==> AllLines(PrintedLines(d)) == Ok(StateAfter(d.version, AsRead(d)))
    ensures !Legible(d.entries) ==> AllLines(PrintedLines(d)).Err?
    decreases |d.entries|
  {
    hide AllLines, PrintableEntry, SkippedLines, TagsOf, HeadLines, StateAfter, AsRead, Block;
    if d.entries == [] {
      HeadRead(d);
    } else {
      var k := |d.entries| - 1;
      LinesRead(Fewer(d));
      LinesSplit(d);
      assert d.entries[k] in d.entries;
      FewerRead(d);
      if Legible(Fewer(d).entries) {
        LaterRead(d);
      } else {
        var front := PrintedLines(Fewer(d));
        assert PrintedLines(d)[..|front|] == front;
        ErrorStays(PrintedLines(d), |front|);
      }
    }
  }

  /** The last item, read behind the earlier ones. */
  lemma LaterRead(d: Doc)
    requires d.entries != [] && PrintableEntry(d.entries[|d.entries| - 1]) && Legible(Fewer(d).entries)
    requires AllLines(PrintedLines(Fewer(d))) == Ok(StateAfter(d.version, AsRead(Fewer(d))))
    ensures Legible(d.entries) ==> AllLines(PrintedLines(d)) == Ok(StateAfter(d.version, AsRead(d)))
    ensures !Legible(d.entries) ==> AllLines(PrintedLines(d)).Err?
  {
    hide AllLines, Block, PrintableSlo, SkippedLines, TagsOf, AsRead, Legible;
    var k, front := |d.entries| - 1, PrintedLines(Fewer(d));
    var e := d.entries[k];
    var st := StateAfter(d.version, AsRead(Fewer(d)));
    PadRead(front, e.pad, st);
    BlockRead(front + e.pad, st, e);
    assert PrintedLines(d) == front + e.pad + Block(e.slo, e.look);
    FewerRead(d);
    LastItem(d);
    LineHere(d);
    StateOpened(d.version, AsRead(d));
  }

  lemma LastItem(d: Doc)
    requires d.entries != []
    ensures var k := |d.entries| - 1; AsRead(d)[k] == WithTags(d.entries[k]).(line := LineOf(d, k))
  {
  }

  lemma LineHere(d: Doc)
    requires d.entries != []
    ensures var k := |d.entries| - 1; LineOf(d, k) == |PrintedLines(Fewer(d)) + d.entries[k].pad| + 1
  {
  }

  lemma HeadRead(d: Doc)
    requires Printable(d) && d.entries == []
    ensures AllLines(PrintedLines(d)) == Ok(StateAfter(d.version, AsRead(d)))
  {
    hide OneLine, IntText, AllLines, SkippedLines;
    var l0, s1 := "version: " + IntText(d.version), START.(version := d.version, versionSeen := true);
    NoLines();
    PadRead([], d.top, START);
    assert [] + d.top == d.top;
    VersionLine(START, d.version, |d.top| + 1);
    OneMore(d.top, l0, START);
    PadRead(d.top + [l0], d.mid, s1);
    SlosLine(s1, |d.top + [l0] + d.mid| + 1);
    OneMore(d.top + [l0] + d.mid, "slos:", s1);
    assert PrintedLines(d) == d.top + [l0] + d.mid + ["slos:"];
  }

  lemma NoLines()
    ensures AllLines([]) == Ok(START)
  {
  }

  /** No printed line holds a newline or ends in a carriage return. */
  predicate Whole(l: string) {
    '\n' !in l && DropCr(l) == l
  }

  lemma ShownWhole(lead: string, v: string, k: Style)
    requires '\n' !in lead && lead != "" && lead[|lead| - 1] != '\r' && Showable(v, k)
    ensures Whole(lead + Shown(v, k))
  {
    hide Quoted;
    ShownRead(v, k);
    if k.Double? {
      DoubleLine(v);
    }
    var l := lead + Shown(v, k);
    if Shown(v, k) != "" {
      assert l[|l| - 1] == Shown(v, k)[|Shown(v, k)| - 1];
    }
  }

  lemma DoubleLine(v: string)
    requires '\n' !in v
    ensures '\n' !in Quoted(v)
  {
    EscapedKeeps(v, '\n');
  }

  lemma NumeralWhole(lead: string, t: string)
    requires '\n' !in lead && IsNumeral(t)
    ensures Whole(lead + t)
  {
  }

  lemma {:induction false} TagListOneLine(tags: seq<string>)
    requires SingleLine(tags)
    ensures '\n' !in TagList(tags)
    decreases tags
  {
    if tags != [] {
      assert tags[0] in tags;
      EscapedKeeps(tags[0], '\n');
      TagListOneLine(tags[1..]);
    }
  }

  lemma {:induction false} JoinedOneLine(tags: seq<string>, k: Style)
    requires !k.Double? && ShowableTags(tags, k)
    ensures '\n' !in Join(AllShown(tags, k), ", ")
    decreases tags
  {
    hide Join, AllShown;
    if tags == [] {
      JoinNone(k, ',');
    } else {
      ShownCons(tags, k);
      assert tags[0] in tags;
      if |tags| > 1 {
        JoinedOneLine(tags[1..], k);
      }
    }
  }

  lemma TagsWhole(tags: seq<string>, k: Style)
    requires ShowableTags(tags, k)
    ensures Whole(ShownLine(tags, k))
  {
    hide TagList, Join, AllShown;
    if k.Double? {
      TagListOneLine(tags);
    } else {
      JoinedOneLine(tags, k);
    }
  }

  lemma BlockWhole(s: Slo, k: Look)
    requires PrintableSlo(s, k)
    ensures forall l :: l in Block(s, k) ==> Whole(l)
  {
    hide Shown, Showable, ShowableTags, ShownLine, DecimalText, Whole;
    PlainLeads();
    LeadEnds();
    ShownWhole(ITEM, s.name, k.name);
    ShownWhole(DESCRIPTION, s.description, k.description);
    ShownWhole(GOOD, s.sli.good, k.good);
    ShownWhole(VALID, s.sli.valid, k.valid);
    DecimalPlain(s.objective);
    NumeralWhole(OBJECTIVE, DecimalText(s.objective));
    ShownWhole(WINDOW, s.window, k.window);
    ShownWhole(OWNER, s.owner, k.owner);
    TagsWhole(s.tags, k.tags);
  }

  lemma PlainLeads()
    ensures '\n' !in ITEM && '\n' !in DESCRIPTION && '\n' !in GOOD && '\n' !in VALID
    ensures '\n' !in OBJECTIVE && '\n' !in WINDOW && '\n' !in OWNER && Whole(SLI)
  {
  }

  lemma LeadEnds()
    ensures |ITEM| > 0 && |DESCRIPTION| > 0 && |GOOD| > 0 && |VALID| > 0 && |WINDOW| > 0 && |OWNER| > 0
    ensures ITEM[|ITEM| - 1] == DESCRIPTION[|DESCRIPTION| - 1] == GOOD[|GOOD| - 1] == VALID[|VALID| - 1] == ' '
    ensures WINDOW[|WINDOW| - 1] == OWNER[|OWNER| - 1] == ' '
  {
  }

  lemma {:induction false} EntriesWhole(es: seq<Entry>)
    requires forall e :: e in es ==> PrintableEntry(e)
    ensures forall l :: l in EntryLines(es) ==> Whole(l)
    decreases |es|
  {
    hide Block, Whole, Skipped, PrintableSlo;
    if es != [] {
      var k := |es| - 1;
      EntriesWhole(es[..k]);
      assert es[k] in es;
      BlockWhole(es[k].slo, es[k].look);
    }
  }

  lemma HeadWhole(d: Doc)
    requires Printable(d)
    ensures forall l :: l in HeadLines(d) ==> Whole(l)
  {
    hide IntText, Whole, Skipped;
    IntTextPlain(d.version);
    NumeralWhole("version: ", IntText(d.version));
    SlosWhole();
  }

  lemma SlosWhole()
    ensures Whole("slos:")
  {
  }

  /** What is read from a printed catalogue. */
  lemma PrintedMeans(d: Doc)
    requires Printable(d)
    ensures Legible(d.entries) ==> Parse(Print(d)) == Ok(Cat(d.version, AsRead(d)))
    ensures !Legible(d.entries) ==> Parse(Print(d)).Err?
  {
    hide AllLines, HeadLines, EntryLines, TagsOf, Finish, StateAfter, AsRead, PrintableEntry;
    EntriesWhole(d.entries);
    HeadWhole(d);
    LinesUnlines(PrintedLines(d));
    LinesRead(d);
    FinishAfter(d.version, AsRead(d), |PrintedLines(d)|);
  }

  lemma FinishAfter(version: int, done: seq<Slo>, lines: nat)
    ensures Finish(StateAfter(version, done), lines) == Ok(Cat(version, done))
  {
    assert done != [] ==> done[..|done| - 1] + [done[|done| - 1]] == done;
  }

  /** A catalogue printed in the documented layout, with scalars plain, in single or in
      double quotes and with blank and comment lines, is read back unchanged, each item
      with the number of the line it starts on, if and only if every tags line can be
      read back. */
  lemma PrintRoundTripIff(d: Doc)
    requires Printable(d)
    ensures Parse(Print(d)) == Ok(Cat(d.version, Numbered(d))) <==>
            forall e :: e in d.entries ==> ReadableAs(e.slo.tags, e.look.tags)
  {
    hide Parse, Print, TagsOf, ReadableAs, LineOf, PrintableSlo;
    PrintedMeans(d);
    forall e | e in d.entries
      ensures TagsOf(e) == Some(e.slo.tags) <==> ReadableAs(e.slo.tags, e.look.tags)
    {
      assert PrintableEntry(e);
      EntryReadIff(e);
    }
    if Legible(d.entries) {
      SameItems(d);
      forall k | 0 <= k < |d.entries|
        ensures WithTags(d.entries[k]) == d.entries[k].slo <==>
                ReadableAs(d.entries[k].slo.tags, d.entries[k].look.tags)
      {
        assert d.entries[k] in d.entries;
      }
    }
  }

  lemma EntryReadIff(e: Entry)
    requires PrintableSlo(e.slo, e.look)
    ensures TagsOf(e) == Some(e.slo.tags) <==> ReadableAs(e.slo.tags, e.look.tags)
  {
    hide LineRead, ShownLine, ReadableAs;
    ShownReadIff(e.slo.tags, e.look.tags);
  }

  /** Numbering hides no difference in the tags. */
  lemma SameItems(d: Doc)
    ensures AsRead(d) == Numbered(d) <==>
            forall k :: 0 <= k < |d.entries| ==> WithTags(d.entries[k]) == d.entries[k].slo
  {
    hide TagsOf, LineOf;
    if AsRead(d) == Numbered(d) {
      forall k | 0 <= k < |d.entries|
        ensures WithTags(d.entries[k]) == d.entries[k].slo
      {
        assert AsRead(d)[k].tags == Numbered(d)[k].tags;
      }
    }
  }
}
