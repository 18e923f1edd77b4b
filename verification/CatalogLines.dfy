/**
 What the loop of cmd/slogen/main.go makes of one line of a catalogue: its keys with
 scalars in whatever style, its numbers, its tags, and the lines it skips.
*/
module CatalogLines {
  import opened Wrappers
  import opened Strconv
  import opened GoStrings
  import opened Catalog
  import opened CatalogScalars
  import opened CatalogTags

  function DecimalText(d: Decimal): string {
    (if d.negative then "-" else "") + NatText(d.whole) + (if d.frac == "" then "" else "." + d.frac)
  }

  const ITEM := "  - name: "
  const DESCRIPTION := "    description: "
  const SLI := "    sli:"
  const GOOD := "      good_events: "
  const VALID := "      valid_events: "
  const OBJECTIVE := "    objective: "
  const WINDOW := "    window: "
  const OWNER := "    owner: "

  // ---------------------------------------------------------------- one line at a time

  lemma {:induction false} TrimKeeps(s: string, k: nat)
    requires k < |s| && !IsBlank(s[k])
    ensures TrimSpace(s) != ""
    decreases |s|
  {
    if IsBlank(s[0]) {
      TrimKeeps(s[1..], k - 1);
    } else {
      TrimRightKeeps(s);
    }
  }

  lemma {:induction false} TrimRightKeeps(s: string)
    requires s != "" && !IsBlank(s[0])
    ensures TrimRight(s, IsBlank) != ""
  {
    if IsBlank(s[|s| - 1]) {
      TrimRightKeeps(s[..|s| - 1]);
    }
  }

  /** A line `indent key: v` falls apart into the key and the scalar, in whatever style it
      is written. */
  lemma ScalarLine(indent: string, key: string, v: string, k: Style)
    requires indent == "  - " || indent == "    " || indent == "      "
    requires key != "" && forall c :: c in key ==> 'a' <= c <= 'z' || c == '_'
    requires Showable(v, k)
    ensures var line := StripComment(indent + (key + ": ") + Shown(v, k));
      && |line| > |indent| && line[..|indent|] == indent && line[|indent|] == key[0] && TrimSpace(line) != ""
      && TrimSpace(Before(line[|indent|..], ':')) == key
      && Unquote(TrimSpace(Behind(line[|indent|..], ':'))) == v
  {
    hide Shown, StripComment, TrimSpace, Unquote, Before, Behind, Showable;
    var t, lead := Shown(v, k), indent + (key + ":");
    var tail := if t == "" then "" else " " + t;
    var line := lead + tail;
    assert indent + (key + ": ") + t == lead + " " + t;
    StripShown(lead, v, k);
    assert StripComment(indent + (key + ": ") + t) == line;
    LeadCut(indent, key, tail);
    assert line[|indent|] == key[0] && key[0] in key && key[|key| - 1] in key && ':' !in key;
    TrimKeeps(line, |indent|);
    CutAt(key, ':', tail);
    TrimTrimmed(key);
    ShownRead(v, k);
    TrimTrimmed(t);
  }

  lemma LeadCut(indent: string, key: string, tail: string)
    ensures var line := indent + (key + ":") + tail;
      line[|indent|..] == key + [':'] + tail && line[..|indent|] == indent
  {
    assert indent + (key + ":") + tail == indent + (key + [':'] + tail);
  }

  lemma NameLine(st: State, v: string, k: Style, n: nat)
    requires st.inSLOs && Showable(v, k)
    ensures OneLine(st, ITEM + Shown(v, k), n) ==
      Ok(st.(slos := if st.current.Some? then st.slos + [st.current.value] else st.slos,
             current := Some(NewSlo(v, n)), inSLI := false))
  {
    hide Shown, StripComment, TrimSpace, Unquote, Before, Behind, Showable;
    assert ITEM == "  - " + ("name" + ": ");
    ScalarLine("  - ", "name", v, k);
    var line := StripComment(ITEM + Shown(v, k));
    assert HasPrefix(line, "  - ") && line[0] == ' ';
  }

  /** A field line goes to the switch over fields. */
  lemma FieldReached(st: State, raw: string, line: string, n: nat)
    requires st.inSLOs && st.current.Some? && StripComment(raw) == line && TrimSpace(line) != ""
    requires |line| > 4 && line[..4] == "    " && line[4] != ' '
    ensures OneLine(st, raw, n) == FieldLine(st, st.current.value, line)
  {
    hide StripComment, TrimSpace, FieldLine;
    assert line[2] == ' ';
    assert HasPrefix(line, " ") && HasPrefix(line, "    ");
    assert line[..5] != "     ";
    assert !HasPrefix(line, "  - ") && !HasPrefix(line, "      ");
  }

  lemma ScalarField(st: State, key: string, v: string, k: Style, n: nat)
    requires st.inSLOs && st.current.Some? && Showable(v, k)
    requires key == "description" || key == "window" || key == "owner"
    ensures var cur := st.current.value;
      OneLine(st, "    " + (key + ": ") + Shown(v, k), n) ==
      Ok(st.(current := Some(if key == "description" then cur.(description := v)
                             else if key == "window" then cur.(window := v) else cur.(owner := v)),
             inSLI := false))
  {
    hide Shown, StripComment, TrimSpace, Unquote, Before, Behind, OneLine, Showable;
    var raw := "    " + (key + ": ") + Shown(v, k);
    ScalarLine("    ", key, v, k);
    FieldReached(st, raw, StripComment(raw), n);
  }

  lemma SliField(st: State, key: string, v: string, k: Style, n: nat)
    requires st.inSLOs && st.current.Some? && st.inSLI && Showable(v, k)
    requires key == "good_events" || key == "valid_events"
    ensures var sli := st.current.value.sli;
      OneLine(st, "      " + (key + ": ") + Shown(v, k), n) ==
      Ok(st.(current := Some(st.current.value.(
        sli := if key == "good_events" then sli.(good := v) else sli.(valid := v)))))
  {
    hide Shown, StripComment, TrimSpace, Unquote, Before, Behind, Showable;
    ScalarLine("      ", key, v, k);
    var line := StripComment("      " + (key + ": ") + Shown(v, k));
    assert HasPrefix(line, " ") && HasPrefix(line, "      ");
    assert line[2] == line[..6][2] == ' ';
    assert !HasPrefix(line, "  - ");
  }

  /** A line with no quote, no `#`, no blank at its end is kept whole. */
  lemma StripPlain(line: string)
    requires line != "" && '"' !in line && '#' !in line && !IsBlank(line[|line| - 1])
    ensures StripComment(line) == line && TrimSpace(line) != ""
  {
    hide Kept;
    KeptQuiet(line, 0, |line|, false);
    KeptEnd(line);
    assert line[0..|line|] + "" == line;
    TrimKeeps(line, |line| - 1);
  }

  lemma SliHead(st: State, n: nat)
    requires st.inSLOs && st.current.Some?
    ensures OneLine(st, SLI, n) == Ok(st.(inSLI := true))
  {
    hide StripComment, TrimSpace, Before, Behind, OneLine;
    StripPlain(SLI);
    FieldReached(st, SLI, SLI, n);
    assert SLI[4..] == "sli" + [':'] + "";
    CutAt("sli", ':', "");
    TrimTrimmed("sli");
    TrimTrimmed("");
  }

  lemma DecimalPlain(d: Decimal)
    requires AllDigits(d.frac)
    ensures IsNumeral(DecimalText(d))
  {
    hide NatText;
    assert NatText(d.whole) != "" && AllDigits(NatText(d.whole));
  }

  lemma PointCut(whole: string, frac: string)
    requires AllDigits(whole)
    ensures var t := whole + (if frac == "" then "" else "." + frac);
      Before(t, '.') == whole && Behind(t, '.') == frac
  {
    assert '.' !in whole;
    if frac == "" {
      assert whole + "" == whole;
      IndexNone(whole, '.');
    } else {
      assert whole + ("." + frac) == whole + ['.'] + frac;
      CutAt(whole, '.', frac);
    }
  }

  /** A printed decimal is read back exactly. */
  lemma DecimalRoundTrip(d: Decimal)
    requires AllDigits(d.frac)
    ensures ParseDecimal(DecimalText(d)) == Some(d)
  {
    hide NatText, DigitsValue, Before, Behind;
    var s, whole := DecimalText(d), NatText(d.whole);
    NatTextValue(d.whole);
    PointCut(whole, d.frac);
    var t := whole + (if d.frac == "" then "" else "." + d.frac);
    assert IsDecimalDigit(whole[0]);
    if d.negative {
      assert s[1..] == t;
    } else {
      assert s == t;
    }
  }

  predicate IsNumeral(t: string) {
    t != "" && forall k :: 0 <= k < |t| ==> IsDecimalDigit(t[k]) || t[k] == '.' || t[k] == '-'
  }

  /** A line `indent key: t` with a bare number is kept whole, and falls apart into
      the key and the number. */
  lemma NumberLine(indent: string, key: string, t: string)
    requires indent == "" || indent == "    "
    requires key != "" && forall c :: c in key ==> 'a' <= c <= 'z'
    requires IsNumeral(t)
    ensures var line := indent + (key + ": ") + t;
      && StripComment(line) == line && TrimSpace(line) != ""
      && line[|indent|..] == key + ": " + t && |line| > |indent| && line[|indent|] == key[0]
      && TrimSpace(Before(line[|indent|..], ':')) == key
      && TrimSpace(Behind(line[|indent|..], ':')) == t
  {
    hide StripComment, TrimSpace, Before, Behind;
    var line := indent + (key + ": ") + t;
    assert forall c :: c in t ==> IsDecimalDigit(c) || c == '.' || c == '-';
    assert line[|line| - 1] == t[|t| - 1];
    assert '"' !in line && '#' !in line && ':' !in key;
    StripPlain(line);
    assert line[|indent|..] == key + ": " + t == key + [':'] + (" " + t);
    CutAt(key, ':', " " + t);
    assert key[0] in key && key[|key| - 1] in key;
    TrimTrimmed(key);
    TrimTrimmed(t);
  }

  lemma ObjectiveLine(st: State, d: Decimal, n: nat)
    requires st.inSLOs && st.current.Some? && AllDigits(d.frac)
    ensures OneLine(st, OBJECTIVE + DecimalText(d), n) ==
      Ok(st.(current := Some(st.current.value.(objective := d)), inSLI := false))
  {
    hide DecimalText, StripComment, TrimSpace, Before, Behind, OneLine, ParseDecimal;
    DecimalPlain(d);
    DecimalRoundTrip(d);
    var line := OBJECTIVE + DecimalText(d);
    assert OBJECTIVE == "    " + ("objective" + ": ");
    NumberLine("    ", "objective", DecimalText(d));
    assert line[..4] == "    ";
    FieldReached(st, line, line, n);
  }

  lemma ShownKept(tags: seq<string>, k: Style)
    requires ShowableTags(tags, k)
    ensures var kept := StripComment(ShownLine(tags, k)); |kept| >= 11 && kept[..11] == TAGS
  {
    hide TagList, Join, AllShown, StripComment, HashSafe, Showable;
    TagsLead();
    if k.Double? {
      LineKept(tags);
    } else {
      HashlessLine(tags, k);
      assert ShownLine(tags, k)[..11] == TAGS;
    }
  }

  lemma TagsLineRead(st: State, tags: seq<string>, k: Style, n: nat)
    requires st.inSLOs && st.current.Some? && ShowableTags(tags, k)
    ensures OneLine(st, ShownLine(tags, k), n) ==
      match LineRead(ShownLine(tags, k))
      case None => Err(TagsNotArray)
      case Some(read) => Ok(st.(current := Some(st.current.value.(tags := read)), inSLI := false))
  {
    hide ShownLine, StripComment, TrimSpace, Before, Behind, OneLine, InlineArray, Showable;
    var kept := StripComment(ShownLine(tags, k));
    ShownKept(tags, k);
    TagsLead();
    assert kept[4] == TAGS[4] && kept[..4] == TAGS[..4];
    assert kept[4..9] == TAGS[4..9];
    TrimKeeps(kept, 4);
    FieldReached(st, ShownLine(tags, k), kept, n);
    assert kept[4..] == kept[4..9] + kept[9..] == "tags" + [':'] + kept[9..];
    CutAt("tags", ':', kept[9..]);
    TrimTrimmed("tags");
  }

  lemma VersionLine(st: State, v: int, n: nat)
    requires -0x8000_0000_0000_0000 <= v <= 0x7fff_ffff_ffff_ffff
    ensures OneLine(st, "version: " + IntText(v), n) ==
      Ok(st.(version := v, versionSeen := true, inSLOs := false, current := None))
  {
    hide IntText, StripComment, TrimSpace, Before, Behind, Atoi;
    IntTextPlain(v);
    IntRoundTrip(v, -0x8000_0000_0000_0000, 0x7fff_ffff_ffff_ffff);
    AtoiIs(IntText(v));
    var line := "version: " + IntText(v);
    NumberLine("", "version", IntText(v));
    assert line == "" + ("version" + ": ") + IntText(v);
    assert line[0..] == line;
  }

  lemma AtoiIs(t: string)
    ensures Atoi(t) == ParseInt(t, -0x8000_0000_0000_0000, 0x7fff_ffff_ffff_ffff)
  {
  }

  lemma IntTextPlain(n: int)
    ensures IsNumeral(IntText(n))
  {
    hide NatText;
    var t := NatText(if n < 0 then -n else n);
    assert t != "" && AllDigits(t);
  }

  lemma SlosLine(st: State, n: nat)
    ensures OneLine(st, "slos:", n) == Ok(st.(inSLOs := true, current := None))
  {
    hide StripComment, TrimSpace, Before, Behind;
    StripPlain("slos:");
    assert "slos:" == "slos" + [':'] + "";
    CutAt("slos", ':', "");
    TrimTrimmed("slos");
    TrimTrimmed("");
    assert "slos:"[0] == 's';
  }

  // ---------------------------------------------------------------- lines that are skipped

  /** Blanks, and perhaps a comment behind them. */
  predicate Skipped(raw: string) {
    raw == "" || raw[0] == '#' || (IsBlank(raw[0]) && Skipped(raw[1..]))
  }

  lemma {:induction false} SkippedKept(raw: string, i: nat)
    requires i <= |raw| && Skipped(raw[i..])
    ensures forall c :: c in Kept(raw, i, false) ==> IsBlank(c)
    decreases |raw| - i
  {
    if i < |raw| && raw[i] != '#' {
      assert raw[i..][0] == raw[i] && raw[i..][1..] == raw[i + 1..];
      SkippedKept(raw, i + 1);
    }
  }

  lemma {:induction false} BlankTrims(s: string)
    requires forall c :: c in s ==> IsBlank(c)
    ensures TrimSpace(s) == ""
    decreases s
  {
    if s != "" {
      assert s[0] in s;
      assert forall c :: c in s[1..] ==> c in s;
      BlankTrims(s[1..]);
    }
  }

  lemma SkippedLine(st: State, raw: string, n: nat)
    requires Skipped(raw)
    ensures OneLine(st, raw, n) == Ok(st)
  {
    hide Kept, TrimSpace, TrimRight;
    assert raw[0..] == raw;
    SkippedKept(raw, 0);
    var kept := Kept(raw, 0, false);
    assert forall c :: c in TrimRight(kept, IsTrailing) ==> c in kept;
    BlankTrims(StripComment(raw));
  }
}
