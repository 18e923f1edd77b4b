/**
 What the catalogue parser keeps of the items it meets, and the validator of
 cmd/slogen/main.go.
*/
module CatalogChecks {
  import opened Wrappers
  import opened Strconv
  import opened GoStrings
  import opened Catalog
  import opened CatalogScalars
  import opened CatalogLines
  import opened CatalogRoundTrip

  // ---------------------------------------------------------------- lost items

  predicate IsBlankLine(raw: string) {
    TrimSpace(StripComment(raw)) == ""
  }

  predicate IsTopKey(raw: string) {
    !IsBlankLine(raw) && !HasPrefix(StripComment(raw), " ")
  }

  predicate IsItem(raw: string) {
    !IsBlankLine(raw) && HasPrefix(StripComment(raw), "  - ")
  }

  /** The name on an item line, and where it stands. */
  function Header(raw: string, n: nat): (string, nat)
    requires IsItem(raw)
  {
    (Unquote(TrimSpace(Behind(StripComment(raw)[4..], ':'))), n)
  }

  /** The items a text announces, in order. */
  function Announced(lines: seq<string>): seq<(string, nat)> {
    if lines == [] then []
    else
      var k := |lines| - 1;
      Announced(lines[..k]) + if IsItem(lines[k]) then [Header(lines[k], k + 1)] else []
  }

  function Headers(slos: seq<Slo>): (r: seq<(string, nat)>)
    ensures |r| == |slos|
  {
    seq(|slos|, i requires 0 <= i < |slos| => (slos[i].name, slos[i].line))
  }

  function Held(st: State): seq<Slo> {
    if st.current.Some? then st.slos + [st.current.value] else st.slos
  }

  /** Every top-level key comes before the first item. */
  predicate KeysFirst(lines: seq<string>) {
    forall i, j :: 0 <= i < j < |lines| && IsItem(lines[i]) ==> !IsTopKey(lines[j])
  }

  /** What one line does to the items held. */
  lemma LineKeeps(st: State, raw: string, n: nat)
    requires OneLine(st, raw, n).Ok?
    ensures var st' := OneLine(st, raw, n).value;
      && (IsTopKey(raw) ==> st'.current == None && st'.slos == st.slos)
      && (IsItem(raw) ==>
            st'.current.Some? && st'.slos == Held(st) && Headers([st'.current.value]) == [Header(raw, n)])
      && (!IsTopKey(raw) && !IsItem(raw) ==>
            && st'.slos == st.slos && st'.current.Some? == st.current.Some?
            && (st.current.Some? ==> Headers([st'.current.value]) == Headers([st.current.value])))
  {
    hide TrimSpace, Unquote, Before, Behind, StripComment, Atoi, ParseDecimal, InlineArray;
    var line := StripComment(raw);
    if IsTopKey(raw) || IsBlankLine(raw) {
    } else if IsItem(raw) {
    } else if HasPrefix(line, "      ") {
    } else {
      FieldKeeps(st, line);
    }
  }

  lemma FieldKeeps(st: State, line: string)
    requires |line| >= 4 && st.current.Some? && FieldLine(st, st.current.value, line).Ok?
    ensures var st' := FieldLine(st, st.current.value, line).value;
      st'.slos == st.slos && st'.current.Some? && Headers([st'.current.value]) == Headers([st.current.value])
  {
    hide TrimSpace, Unquote, Before, Behind, ParseDecimal, InlineArray;
  }

  lemma {:induction false} ItemFirst(lines: seq<string>)
    ensures Announced(lines) == [] <==> forall i :: 0 <= i < |lines| ==> !IsItem(lines[i])
  {
    hide IsItem, Header;
    if lines != [] {
      ItemFirst(lines[..|lines| - 1]);
    }
  }

  lemma KeysFirstStep(lines: seq<string>, raw: string)
    ensures KeysFirst(lines + [raw]) <==> KeysFirst(lines) && (IsTopKey(raw) ==> Announced(lines) == [])
  {
    hide IsItem, IsTopKey, Announced;
    ItemFirst(lines);
    var all := lines + [raw];
    if KeysFirst(all) {
      forall i, j | 0 <= i < j < |lines| && IsItem(lines[i]) ensures !IsTopKey(lines[j]) {
        assert all[i] == lines[i] && all[j] == lines[j];
      }
      forall i | 0 <= i < |lines| && IsTopKey(raw) ensures !IsItem(lines[i]) {
        assert all[i] == lines[i] && all[|lines|] == raw;
      }
    }
  }

  lemma {:induction false} HeldItems(lines: seq<string>)
    requires AllLines(lines).Ok?
    ensures var st := AllLines(lines).value;
      if KeysFirst(lines) then
        Headers(Held(st)) == Announced(lines) && (st.current.Some? <==> Announced(lines) != [])
      else |Held(st)| < |Announced(lines)|
  {
    hide OneLine, IsItem, IsTopKey, Header, KeysFirst;
    if lines == [] {
      NoKeyYet();
    } else {
      var k := |lines| - 1;
      var before, raw := lines[..k], lines[k];
      HeldItems(before);
      var st := AllLines(before).value;
      LineKeeps(st, raw, k + 1);
      assert before + [raw] == lines;
      KeysFirstStep(before, raw);
      HeldStep(st, OneLine(st, raw, k + 1).value);
      ItemNotTop(raw);
    }
  }

  lemma HeldStep(st: State, st': State)
    ensures st'.slos == st.slos && st'.current == None && st.current == None ==> Held(st') == Held(st)
    ensures st'.current.Some? ==> Headers(Held(st')) == Headers(st'.slos) + Headers([st'.current.value])
    ensures st.current.Some? ==> Headers(Held(st)) == Headers(st.slos) + Headers([st.current.value])
  {
  }

  lemma ItemNotTop(raw: string)
    ensures !(IsItem(raw) && IsTopKey(raw))
  {
    hide TrimSpace, StripComment;
  }

  lemma NoKeyYet()
    ensures KeysFirst([])
  {
  }

  /** Of a text that parses, exactly the announced items come out, in order, just
      when no top-level key follows an item; otherwise at least one is lost. */
  lemma NoItemLostIff(text: string)
    requires Parse(text).Ok?
    ensures var slos, lines := Parse(text).value.slos, Lines(text);
      && (Headers(slos) == Announced(lines) <==> KeysFirst(lines))
      && (!KeysFirst(lines) ==> |slos| < |Announced(lines)|)
  {
    hide AllLines, Announced, KeysFirst, Lines;
    HeldItems(Lines(text));
  }

  /** A key behind an item: the item is announced, and lost without an error. */
  function LateKey(): seq<string> {
    ["slos:", ITEM + Shown("a", Double), "version: " + IntText(1)]
  }

  lemma LateKeyLosesItem()
    ensures var text := Unlines(LateKey());
      Parse(text) == Ok(Cat(1, [])) && Announced(Lines(text)) == [("a", 2)] && !KeysFirst(Lines(text))
  {
    hide AllLines, Announced, KeysFirst, Shown, IntText;
    LateKeyRead();
    LateKeyLines();
    LateKeyAnnounced();
    HeldItems(LateKey());
  }

  lemma LateKeyRead()
    ensures AllLines(LateKey()) == Ok(State(1, [], true, false, None, START.inSLI))
  {
    hide AllLines, OneLine, Shown, IntText;
    var lines := LateKey();
    StartRead();
    SlosLine(START, 1);
    OneMore([], lines[0], START);
    assert [] + [lines[0]] == [lines[0]];
    var s1 := START.(inSLOs := true, current := None);
    NameLine(s1, "a", Double, 2);
    OneMore([lines[0]], lines[1], s1);
    var s2 := OneLine(s1, lines[1], 2).value;
    VersionLine(s2, 1, 3);
    OneMore([lines[0]] + [lines[1]], lines[2], s2);
    assert [lines[0]] + [lines[1]] + [lines[2]] == lines;
  }

  lemma StartRead()
    ensures AllLines([]) == Ok(START)
  {
  }

  lemma LateKeyLines()
    ensures Lines(Unlines(LateKey())) == LateKey()
  {
    hide Shown, IntText, Lines;
    ShownWhole(ITEM, "a", Double);
    IntTextPlain(1);
    NumeralWhole("version: ", IntText(1));
    LinesUnlines(LateKey());
  }

  lemma LateKeyAnnounced()
    ensures Announced(LateKey()) == [("a", 2)]
  {
    hide IsItem, Header, Shown, IntText;
    var lines := LateKey();
    LateKeyItems();
    assert lines[..2] == [lines[0], lines[1]] && lines[..2][..1] == [lines[0]] && [lines[0]][..0] == [];
    assert Announced([lines[0]]) == [];
    assert Announced(lines[..2]) == [("a", 2)];
  }

  lemma LateKeyItems()
    ensures !IsItem(LateKey()[0]) && !IsItem(LateKey()[2])
    ensures IsItem(LateKey()[1]) && Header(LateKey()[1], 2) == ("a", 2)
  {
    hide StripComment, TrimSpace, Shown, Unquote, IntText, Before, Behind;
    var lines := LateKey();
    StripPlain("slos:");
    assert "slos:"[0] == 's';
    assert ITEM + Shown("a", Double) == "  - " + ("name" + ": ") + Shown("a", Double);
    ScalarLine("  - ", "name", "a", Double);
    IntTextPlain(1);
    NumberLine("", "version", IntText(1));
    assert lines[2] == "" + ("version" + ": ") + IntText(1) && lines[2][0] == 'v';
  }

  /** An item of which only the name is written has nothing else. */
  lemma BareItem(version: int, name: string, k: Style)
    requires -0x8000_0000_0000_0000 <= version <= 0x7fff_ffff_ffff_ffff && Showable(name, k)
    ensures Parse(Unlines(["version: " + IntText(version), "slos:", ITEM + Shown(name, k)])) ==
      Ok(Cat(version, [Slo(name, "", Sli("", ""), Decimal(false, 0, ""), "", "", [], 3)]))
  {
    hide AllLines, OneLine, Shown, IntText, Showable, Lines;
    var lines := ["version: " + IntText(version), "slos:", ITEM + Shown(name, k)];
    StartRead();
    VersionLine(START, version, 1);
    OneMore([], lines[0], START);
    assert [] + [lines[0]] == [lines[0]];
    var s1 := START.(version := version, versionSeen := true);
    SlosLine(s1, 2);
    OneMore([lines[0]], lines[1], s1);
    var s2 := s1.(inSLOs := true);
    NameLine(s2, name, k, 3);
    OneMore([lines[0]] + [lines[1]], lines[2], s2);
    assert [lines[0]] + [lines[1]] + [lines[2]] == lines;
    BareWhole(version, name, k);
    LinesUnlines(lines);
    var item := NewSlo(name, 3);
    assert START.slos + [item] == [item];
    assert AllLines(lines) == Ok(State(version, [], true, true, Some(item), false));
  }

  lemma BareWhole(version: int, name: string, k: Style)
    requires Showable(name, k)
    ensures Whole("version: " + IntText(version)) && Whole("slos:") && Whole(ITEM + Shown(name, k))
  {
    hide Shown, IntText, Showable;
    IntTextPlain(version);
    NumeralWhole("version: ", IntText(version));
    ShownWhole(ITEM, name, k);
  }

  // ---------------------------------------------------------------- validation

  predicate IsLower(c: char) {
    'a' <= c <= 'z'
  }

  predicate ValidName(s: string) {
    s != "" && IsLower(s[0]) && forall c :: c in s ==> IsLower(c) || IsDecimalDigit(c) || c == '_'
  }

  predicate ValidWindow(s: string) {
    |s| >= 2 && AllDigits(s[..|s| - 1]) && s[|s| - 1] in "mhdw"
  }

  /** A window is digits and one of four units. */
  lemma WindowIff(s: string)
    ensures ValidWindow(s) <==>
      exists d, u :: Digits(d) && (u == "m" || u == "h" || u == "d" || u == "w") && s == d + u
  {
    forall d, u | Digits(d) && (u == "m" || u == "h" || u == "d" || u == "w") && s == d + u
      ensures ValidWindow(s)
    {
      assert s[..|s| - 1] == d && s[|s| - 1] == u[0];
      UnitLetters(u[0]);
    }
    if ValidWindow(s) {
      var d, u := s[..|s| - 1], [s[|s| - 1]];
      UnitLetters(u[0]);
      assert s == d + u && Digits(d);
    }
  }

  lemma UnitLetters(c: char)
    ensures c in "mhdw" <==> c == 'm' || c == 'h' || c == 'd' || c == 'w'
  {
    assert "mhdw" == ['m', 'h', 'd', 'w'];
  }

  /** A name is a small letter, and behind it small letters, digits and underscores. */
  lemma NameIff(s: string)
    ensures ValidName(s) <==>
      (&& s != "" && 97 <= s[0] as int <= 122
       && forall k :: 0 <= k < |s| ==> 97 <= s[k] as int <= 122 || 48 <= s[k] as int <= 57 || s[k] as int == 95)
  {
    assert forall k :: 0 <= k < |s| ==> s[k] in s;
  }

  /** Strictly between 0 and 100. */
  predicate ValidObjective(d: Decimal) {
    !d.negative && d.whole < 100 && (d.whole > 0 || exists c :: c in d.frac && c != '0')
  }

  /** Neither empty nor seen before. */
  predicate FreshTag(tags: seq<string>, i: nat)
    requires i < |tags|
  {
    tags[i] != "" && tags[i] !in tags[..i]
  }

  predicate ValidTags(tags: seq<string>) {
    forall i :: 0 <= i < |tags| ==> FreshTag(tags, i)
  }

  predicate ValidSlo(s: Slo) {
    && ValidName(s.name) && |s.description| >= 10 && s.sli.good != "" && s.sli.valid != ""
    && ValidObjective(s.objective) && ValidWindow(s.window) && s.owner != "" && ValidTags(s.tags)
  }

  predicate Distinct(slos: seq<Slo>) {
    forall i, j :: 0 <= i < j < |slos| ==> slos[i].name != slos[j].name
  }

  predicate ValidSlos(slos: seq<Slo>) {
    (forall s :: s in slos ==> ValidSlo(s)) && Distinct(slos)
  }

  predicate ValidCatalog(c: Cat) {
    c.version == 1 && c.slos != [] && ValidSlos(c.slos)
  }

  datatype Field = Name | Description | GoodEvents | ValidEvents | Objective | Window | Owner | TagAt(index: nat)

  datatype Violation = Version | NoItems | InItem(index: nat, field: Field) | DuplicateName(index: nat)

  /** The order of the rules, the tags last and in their order. */
  function Rank(f: Field): nat {
    match f
    case Name => 0
    case Description => 1
    case GoodEvents => 2
    case ValidEvents => 3
    case Objective => 4
    case Window => 5
    case Owner => 6
    case TagAt(i) => 7 + i
  }

  predicate Meets(s: Slo, f: Field) {
    match f
    case Name => ValidName(s.name)
    case Description => |s.description| >= 10
    case GoodEvents => s.sli.good != ""
    case ValidEvents => s.sli.valid != ""
    case Objective => ValidObjective(s.objective)
    case Window => ValidWindow(s.window)
    case Owner => s.owner != ""
    case TagAt(i) => i < |s.tags| ==> FreshTag(s.tags, i)
  }

  /** `f` breaks its rule, and no rule before it is broken. */
  ghost predicate FirstBroken(s: Slo, f: Field) {
    !Meets(s, f) && forall g :: Rank(g) < Rank(f) ==> Meets(s, g)
  }

  lemma FirstIsOnly(s: Slo, f: Field)
    requires FirstBroken(s, f)
    ensures !ValidSlo(s) && forall g :: FirstBroken(s, g) <==> g == f
  {
    hide ValidName, ValidObjective, ValidWindow;
    forall g | FirstBroken(s, g)
      ensures g == f
    {
      assert Rank(g) == Rank(f);
    }
  }

  lemma NoneBroken(s: Slo, f: Field)
    requires ValidSlo(s)
    ensures Meets(s, f)
  {
    hide ValidName, ValidObjective, ValidWindow;
  }

  /** `validateSLO`: the first field that breaks its rule, and for the tags the
      first tag that is empty or repeated. */
  method ValidateSlo(s: Slo) returns (r: Option<Field>)
    ensures r == None <==> ValidSlo(s)
    ensures forall f :: r == Some(f) <==> FirstBroken(s, f)
  {
    if !ValidName(s.name) {
      FirstIsOnly(s, Name);
      return Some(Name);
    }
    if |s.description| < 10 {
      FirstIsOnly(s, Description);
      return Some(Description);
    }
    if s.sli.good == "" {
      FirstIsOnly(s, GoodEvents);
      return Some(GoodEvents);
    }
    if s.sli.valid == "" {
      FirstIsOnly(s, ValidEvents);
      return Some(ValidEvents);
    }
    if s.objective.negative || s.objective.whole >= 100 ||
       (s.objective.whole == 0 && forall c :: c in s.objective.frac ==> c == '0') {
      FirstIsOnly(s, Objective);
      return Some(Objective);
    }
    if !ValidWindow(s.window) {
      FirstIsOnly(s, Window);
      return Some(Window);
    }
    if s.owner == "" {
      FirstIsOnly(s, Owner);
      return Some(Owner);
    }
    var tagSet: set<string> := {};
    for i := 0 to |s.tags|
      invariant forall t :: t in tagSet <==> t in s.tags[..i]
      invariant forall k :: 0 <= k < i ==> FreshTag(s.tags, k)
    {
      var t := s.tags[i];
      if t == "" || t in tagSet {
        FirstIsOnly(s, TagAt(i));
        return Some(TagAt(i));
      }
      tagSet := tagSet + {t};
      assert s.tags[..i + 1] == s.tags[..i] + [t];
    }
    forall f
      ensures Meets(s, f)
    {
      NoneBroken(s, f);
    }
    return None;
  }

  predicate Repeats(slos: seq<Slo>, i: nat)
    requires i < |slos|
  {
    exists k :: 0 <= k < i && slos[k].name == slos[i].name
  }

  /** `v` breaks its rule, and no rule before it is broken: the items before the one it
      names are in order among themselves. */
  ghost predicate Breaks(c: Cat, v: Violation) {
    match v
    case Version => c.version != 1
    case NoItems => c.version == 1 && c.slos == []
    case InItem(i, f) => c.version == 1 && i < |c.slos| && ValidSlos(c.slos[..i]) && FirstBroken(c.slos[i], f)
    case DuplicateName(i) =>
      c.version == 1 && i < |c.slos| && ValidSlos(c.slos[..i]) && ValidSlo(c.slos[i]) && Repeats(c.slos, i)
  }

  /** A violation stops every longer run of items from being in order. */
  lemma BreaksBefore(c: Cat, v: Violation, n: nat)
    requires Breaks(c, v) && (v.InItem? || v.DuplicateName?) && v.index < n <= |c.slos|
    ensures !ValidSlos(c.slos[..n])
  {
    hide ValidSlo;
    var i, part := v.index, c.slos[..n];
    assert part[i] == c.slos[i] && part[i] in part;
    if v.InItem? {
      FirstIsOnly(c.slos[i], v.field);
    } else {
      var k :| 0 <= k < i && c.slos[k].name == c.slos[i].name;
      assert part[k].name == part[i].name;
    }
  }

  lemma BreaksIsOnly(c: Cat, v: Violation)
    requires Breaks(c, v)
    ensures !ValidCatalog(c) && forall w :: Breaks(c, w) <==> w == v
  {
    hide ValidSlo, ValidSlos, FirstBroken;
    assert c.slos[..|c.slos|] == c.slos;
    if v.InItem? || v.DuplicateName? {
      BreaksBefore(c, v, |c.slos|);
    }
    forall w | Breaks(c, w)
      ensures w == v
    {
      if (v.InItem? || v.DuplicateName?) && (w.InItem? || w.DuplicateName?) {
        SameItem(c, v, w);
      }
    }
  }

  lemma SameItem(c: Cat, v: Violation, w: Violation)
    requires Breaks(c, v) && (v.InItem? || v.DuplicateName?)
    requires Breaks(c, w) && (w.InItem? || w.DuplicateName?)
    ensures w == v
  {
    hide ValidSlo, ValidSlos, FirstBroken;
    if v.index < w.index {
      BreaksBefore(c, v, w.index);
    } else if w.index < v.index {
      BreaksBefore(c, w, v.index);
    } else if v.InItem? {
      FirstIsOnly(c.slos[v.index], v.field);
    } else if w.InItem? {
      FirstIsOnly(c.slos[w.index], w.field);
    }
  }

  lemma NothingBroken(c: Cat, v: Violation)
    requires ValidCatalog(c)
    ensures !Breaks(c, v)
  {
    hide ValidSlos, FirstBroken;
    if Breaks(c, v) {
      BreaksIsOnly(c, v);
    }
  }

  /** `validateCatalog`: nothing exactly on a valid catalogue; otherwise the first
      item that breaks a rule, all items before it being in order, and of that item
      the first broken rule. */
  method ValidateCatalog(c: Cat) returns (r: Option<Violation>)
    ensures r == None <==> ValidCatalog(c)
    ensures forall v :: r == Some(v) <==> Breaks(c, v)
  {
    hide ValidSlo, FirstBroken;
    if c.version != 1 {
      BreaksIsOnly(c, Version);
      return Some(Version);
    }
    if |c.slos| == 0 {
      BreaksIsOnly(c, NoItems);
      return Some(NoItems);
    }
    var seen: set<string> := {};
    for i := 0 to |c.slos|
      invariant forall n :: n in seen <==> exists k :: 0 <= k < i && c.slos[k].name == n
      invariant ValidSlos(c.slos[..i])
    {
      var s := c.slos[i];
      var fault := ValidateSlo(s);
      if fault.Some? {
        BreaksIsOnly(c, InItem(i, fault.value));
        return Some(InItem(i, fault.value));
      }
      if s.name in seen {
        BreaksIsOnly(c, DuplicateName(i));
        return Some(DuplicateName(i));
      }
      seen := seen + {s.name};
      assert c.slos[..i + 1] == c.slos[..i] + [s];
    }
    assert c.slos[..|c.slos|] == c.slos;
    forall v
      ensures !Breaks(c, v)
    {
      NothingBroken(c, v);
    }
    return None;
  }
}
