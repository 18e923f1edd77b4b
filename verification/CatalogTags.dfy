/**
 The tags line of the documented catalogue layout: which tag lists cmd/slogen reads
 back, given that its comment stripper follows quotes and its array reader does not.
*/
module CatalogTags {
  import opened Wrappers
  import opened GoStrings
  import opened Catalog
  import opened CatalogScalars

  function TagList(tags: seq<string>): string {
    if tags == [] then "" else if |tags| == 1 then Quoted(tags[0]) else Quoted(tags[0]) + ", " + TagList(tags[1..])
  }

  const TAGS := "    tags: ["

  function TagsLine(tags: seq<string>): string {
    TAGS + TagList(tags) + "]"
  }

  /** What is read from the printed line, nothing standing for an error. */
  function TagsRead(tags: seq<string>): Option<seq<string>> {
    LineRead(TagsLine(tags))
  }

  /** What is read from a tags line. */
  function LineRead(raw: string): Option<seq<string>> {
    var line := StripComment(raw);
    if |line| < 9 then None else InlineArray(TrimSpace(line[9..]))
  }

  /** With the quote flag of the comment stripper up before a tag, the tag must hold no
      `#`; a tag that ends in a backslash changes the flag for those behind it. */
  predicate HashSafe(tags: seq<string>, up: bool)
    decreases tags
  {
    tags == [] || ((up ==> '#' !in tags[0]) && HashSafe(tags[1..], up != EndsInBackslash(tags[0])))
  }

  predicate CommaFree(tags: seq<string>) {
    forall t :: t in tags ==> ',' !in t
  }

  /** No tag holds a comma, and none holds a `#` behind an odd number of tags that end
      in a backslash. */
  predicate Readable(tags: seq<string>) {
    CommaFree(tags) && HashSafe(tags, false)
  }

  predicate SingleLine(tags: seq<string>) {
    forall t :: t in tags ==> '\n' !in t
  }

  // ---------------------------------------------------------------- counting a character

  function Count(s: string, c: char): nat {
    if s == "" then 0 else (if s[0] == c then 1 else 0) + Count(s[1..], c)
  }

  function CountAll(parts: seq<string>, c: char): nat {
    if parts == [] then 0 else Count(parts[0], c) + CountAll(parts[1..], c)
  }

  lemma {:induction false} CountJoin(a: string, b: string, c: char)
    ensures Count(a + b, c) == Count(a, c) + Count(b, c)
    decreases a
  {
    if a == "" {
      assert a + b == b;
    } else {
      assert (a + b)[1..] == a[1..] + b;
      CountJoin(a[1..], b, c);
    }
  }

  lemma CountPart(s: string, i: nat, j: nat, c: char)
    requires i <= j <= |s|
    ensures Count(s[i..j], c) <= Count(s, c)
  {
    CountJoin(s[..i], s[i..j] + s[j..], c);
    CountJoin(s[i..j], s[j..], c);
    assert s == s[..i] + (s[i..j] + s[j..]);
  }

  lemma {:induction false} CountNone(s: string, c: char)
    ensures Count(s, c) == 0 <==> c !in s
    decreases s
  {
    if s != "" {
      CountNone(s[1..], c);
    }
  }

  lemma {:induction false} TrimLeftPart(s: string)
    ensures exists i: nat :: i <= |s| && TrimLeft(s) == s[i..]
    decreases s
  {
    if s != "" && IsBlank(s[0]) {
      TrimLeftPart(s[1..]);
      var i: nat :| i <= |s[1..]| && TrimLeft(s[1..]) == s[1..][i..];
      assert s[1..][i..] == s[i + 1..];
    } else {
      assert s == s[0..];
    }
  }

  lemma PrefixPart(s: string, i: nat, t: string)
    requires i <= |s| && t <= s[i..]
    ensures i + |t| <= |s| && s[i..i + |t|] == t
  {
    var u := s[i..];
    assert u[..|t|] == t;
    assert s[i..i + |t|] == u[..|t|];
  }

  lemma CountTrim(s: string, c: char)
    ensures Count(TrimSpace(s), c) <= Count(s, c)
  {
    hide Count, TrimLeft, TrimRight;
    TrimLeftPart(s);
    var i: nat :| i <= |s| && TrimLeft(s) == s[i..];
    var t := TrimSpace(s);
    PrefixPart(s, i, t);
    CountPart(s, i, i + |t|, c);
  }

  lemma {:induction false} CountSplit(s: string, cut: char, c: char)
    ensures CountAll(Split(s, cut), c) <= Count(s, c)
    ensures |Split(s, cut)| == 1 + Count(s, cut)
    decreases |s|
  {
    var n := IndexOf(s, cut);
    CountNone(s[..n], cut);
    if n < |s| {
      var head, tail := s[..n], s[n + 1..];
      CountSplit(tail, cut, c);
      assert s == head + ([cut] + tail);
      CountJoin(head, [cut] + tail, c);
      CountJoin([cut], tail, c);
      CountJoin(head, [cut] + tail, cut);
      CountJoin([cut], tail, cut);
      CountOne(cut);
      assert Split(s, cut)[1..] == Split(tail, cut);
    } else {
      assert s[..n] == s && [s][1..] == [];
    }
  }

  lemma CountOne(c: char)
    ensures Count([c], c) == 1
  {
    assert [c][1..] == "";
  }

  lemma {:induction false} CountUnescape(s: string)
    requires Unescape(s).Some?
    ensures Count(Unescape(s).value, '#') <= Count(s, '#')
    decreases s
  {
    if s[0] == '"' {
    } else if s[0] == '\\' {
      CountUnescape(s[2..]);
      var r := Unescape(s[2..]).value;
      assert Escape(s[1]).value != '#';
      assert ([Escape(s[1]).value] + r)[1..] == r;
      CountPart(s, 2, |s|, '#');
      assert s[2..|s|] == s[2..];
    } else {
      CountUnescape(s[1..]);
      var r := Unescape(s[1..]).value;
      assert ([s[0]] + r)[1..] == r;
    }
  }

  lemma CountUnquote(v: string)
    ensures Count(Unquote(v), '#') <= Count(v, '#')
  {
    if Enclosed(v, '"') && Unescape(v[1..]).Some? {
      CountUnescape(v[1..]);
    } else if Enclosed(v, '\'') {
      CountPart(v, 1, |v| - 1, '#');
    }
  }

  lemma {:induction false} CountUnquoted(parts: seq<string>)
    ensures CountAll(Unquoted(parts), '#') <= CountAll(parts, '#')
    decreases parts
  {
    hide Unquote, TrimSpace;
    if parts != [] {
      CountUnquoted(parts[1..]);
      CountTrim(parts[0], '#');
      CountUnquote(TrimSpace(parts[0]));
      assert parts == [parts[0]] + parts[1..];
      UnquotedCons(parts[0], parts[1..]);
      assert Unquoted(parts)[1..] == Unquoted(parts[1..]);
    }
  }

  lemma UnquotedCons(p: string, parts: seq<string>)
    ensures Unquoted([p] + parts) == [Unquote(TrimSpace(p))] + Unquoted(parts)
  {
  }

  /** No `#` appears that was not in the text read. */
  lemma CountRead(v: string)
    requires InlineArray(v).Some?
    ensures CountAll(InlineArray(v).value, '#') <= Count(v, '#')
  {
    hide TrimSpace, Split, Unquoted;
    var t := TrimSpace(v);
    CountTrim(v, '#');
    if t != "" {
      var body := TrimSpace(t[1..|t| - 1]);
      CountPart(t, 1, |t| - 1, '#');
      CountTrim(t[1..|t| - 1], '#');
      if body != "" {
        CountSplit(body, ',', '#');
        CountUnquoted(Split(body, ','));
      }
    }
  }

  lemma {:induction false} CountEscaped(s: string, c: char)
    requires c != '\\' && c != '"'
    ensures Count(Escaped(s), c) == Count(s, c)
    decreases s
  {
    if s != "" {
      CountEscaped(s[1..], c);
      var piece := if s[0] == '\\' then "\\\\" else if s[0] == '"' then "\\\"" else [s[0]];
      CountJoin(piece, Escaped(s[1..]), c);
      assert |piece| == 2 ==> piece[1..][1..] == "";
      assert |piece| == 1 ==> piece[1..] == "";
    }
  }

  lemma CountQuoted(s: string, c: char)
    requires c != '\\' && c != '"'
    ensures Count(Quoted(s), c) == Count(s, c)
  {
    CountEscaped(s, c);
    CountJoin("\"" + Escaped(s), "\"", c);
    CountJoin("\"", Escaped(s), c);
    assert "\""[1..] == "";
  }

  lemma {:induction false} CountTags(tags: seq<string>, c: char)
    requires c == '#' || c == ','
    ensures Count(TagList(tags), c) == CountAll(tags, c) + if c == ',' && tags != [] then |tags| - 1 else 0
    decreases tags
  {
    hide Quoted;
    if tags != [] {
      CountQuoted(tags[0], c);
      if |tags| == 1 {
        assert tags[1..] == [];
      } else {
        CountTags(tags[1..], c);
        CountJoin(Quoted(tags[0]) + ", ", TagList(tags[1..]), c);
        CountJoin(Quoted(tags[0]), ", ", c);
        assert ", "[1..] == " " && " "[1..] == "";
      }
    }
  }

  lemma {:induction false} NoneOfAll(tags: seq<string>, c: char)
    ensures CountAll(tags, c) == 0 <==> forall t :: t in tags ==> c !in t
    decreases tags
  {
    if tags != [] {
      CountNone(tags[0], c);
      NoneOfAll(tags[1..], c);
      assert tags == [tags[0]] + tags[1..];
    }
  }

  // ---------------------------------------------------------------- what the comment stripper keeps

  /** What is kept is the text up to a `#`, or all of it. */
  lemma {:induction false} KeptOrCut(line: string, i: nat, q: bool)
    requires i <= |line|
    ensures var k := Kept(line, i, q);
      k <= line[i..] && (k == line[i..] || Count(k, '#') < Count(line[i..], '#'))
    decreases |line| - i
  {
    if i < |line| {
      var next := Toggled(line, i, q);
      assert line[i..][1..] == line[i + 1..];
      if line[i] != '#' || next {
        KeptOrCut(line, i + 1, next);
        assert Kept(line, i, q)[1..] == Kept(line, i + 1, next);
        assert line[i..] == [line[i]] + line[i + 1..];
      }
    }
  }

  /** A `#` with the flag down, no quote flipping it before, cuts the line. */
  lemma {:induction false} KeptCut(line: string, i: nat, j: nat)
    requires i < j <= |line| && Quiet(line, i, j) && exists k :: i <= k < j && line[k] == '#'
    ensures Kept(line, i, false) != line[i..]
    decreases j - i
  {
    if line[i] != '#' {
      KeptCut(line, i + 1, j);
      assert line[i..] == [line[i]] + line[i + 1..];
    }
  }

  lemma {:induction false} EscapedHas(s: string)
    requires '#' in s
    ensures '#' in Escaped(s)
    decreases s
  {
    if s[0] != '#' {
      EscapedHas(s[1..]);
    }
  }

  /** With the flag up a quoted scalar that holds a `#` is cut. */
  lemma QuotedCut(line: string, i: nat, s: string, j: nat)
    requires i <= j <= |line| && line[i..j] == Quoted(s) && '#' in s
    requires i == 0 || line[i - 1] != '\\'
    ensures Kept(line, i, true) != line[i..]
  {
    hide Kept, Escaped;
    QuotedCells(line, i, s, j);
    EscapedQuiet(s);
    EscapedHas(s);
    var k :| 0 <= k < |Escaped(s)| && Escaped(s)[k] == '#';
    assert line[i + 1 + k] == '#';
    KeptCharacter(line, i, true);
    KeptCut(line, i + 1, j - 1);
    assert line[i..] == [line[i]] + line[i + 1..];
  }

  lemma TagListParts(tags: seq<string>)
    ensures tags == [] ==> TagList(tags) == ""
    ensures |tags| == 1 ==> TagList(tags) == Quoted(tags[0])
    ensures |tags| > 1 ==> TagList(tags) == Quoted(tags[0]) + ", " + TagList(tags[1..])
  {
  }

  lemma TagCells(line: string, i: nat, tags: seq<string>, j: nat)
    requires i <= |line| && line[i..] == TagList(tags) + "]" && tags != []
    requires j == i + |Quoted(tags[0])|
    ensures j < |line| && line[i..j] == Quoted(tags[0])
    ensures |tags| == 1 ==> line[j..] == "]"
    ensures |tags| > 1 ==> |line| > j + 2 && line[j..j + 2] == ", " && line[j + 2..] == TagList(tags[1..]) + "]"
  {
    hide Quoted, TagList;
    TagListParts(tags);
    assert line[i..j] == line[i..][..j - i];
    assert line[j..] == line[i..][j - i..];
    if |tags| > 1 {
      assert line[j..] == ", " + TagList(tags[1..]) + "]";
      assert line[j..j + 2] == line[j..][..2];
      assert line[j + 2..] == line[j..][2..];
    }
  }

  /** Behind one tag the rest is kept whole or not. */
  lemma KeptBehind(line: string, i: nat, j: nat, tags: seq<string>, up: bool)
    requires 0 < i <= j && tags != [] && i <= |line| && line[i..] == TagList(tags) + "]"
    requires j == i + |Quoted(tags[0])| && line[i - 1] != '\\' && (up ==> '#' !in tags[0])
    ensures var next := up != EndsInBackslash(tags[0]);
      && j < |line| && (Kept(line, i, up) == line[i..] <==> Kept(line, j, next) == line[j..])
      && (|tags| == 1 ==> Kept(line, j, next) == line[j..])
      && (|tags| > 1 ==>
            (&& j + 2 < |line| && line[j + 1] == ' ' && line[j + 2..] == TagList(tags[1..]) + "]"
             && (Kept(line, j, next) == line[j..] <==> Kept(line, j + 2, next) == line[j + 2..])))
  {
    hide Kept, Quoted, TagList, EndsInBackslash;
    var next := up != EndsInBackslash(tags[0]);
    TagCells(line, i, tags, j);
    KeptQuoted(line, i, tags[0], j, up);
    Glue(line, i, j);
    KeptEnd(line);
    if |tags| == 1 {
      KeptPlain(line, j, |line|, "]", next);
    } else {
      assert line[j + 1] == line[j..j + 2][1];
      KeptPlain(line, j, j + 2, ", ", next);
      Glue(line, j, j + 2);
    }
  }

  /** The tags are kept whole exactly when no `#` meets a lowered flag. */
  lemma {:induction false} KeptTags(line: string, i: nat, tags: seq<string>, up: bool)
    requires 0 < i <= |line| && line[i..] == TagList(tags) + "]" && line[i - 1] != '\\'
    ensures Kept(line, i, up) == line[i..] <==> HashSafe(tags, up)
    decreases tags
  {
    hide Kept, Quoted, TagList;
    KeptEnd(line);
    if tags == [] {
      TagListParts(tags);
      KeptPlain(line, i, |line|, "]", up);
    } else {
      var j := i + |Quoted(tags[0])|;
      if up && '#' in tags[0] {
        TagCells(line, i, tags, j);
        QuotedCut(line, i, tags[0], j);
      } else {
        KeptBehind(line, i, j, tags, up);
        if |tags| > 1 {
          KeptTags(line, j + 2, tags[1..], up != EndsInBackslash(tags[0]));
        }
      }
    }
  }

  lemma TagsLead()
    ensures |TAGS| == 11 && '"' !in TAGS && '#' !in TAGS && TAGS[9] == ' ' && TAGS[10] == '['
    ensures TAGS[..4] == "    " && TAGS[4] == 't' && TAGS[4..9] == "tags:" && TAGS[9..] == " ["
  {
  }

  /** What is left of the printed line: all of it when it is safe, and otherwise less
      hashes than were printed. */
  lemma LineKept(tags: seq<string>)
    ensures var line, kept := TagsLine(tags), StripComment(TagsLine(tags));
      && |kept| >= 11 && kept[..11] == TAGS
      && (HashSafe(tags, false) ==> kept == line)
      && (!HashSafe(tags, false) ==> Count(kept, '#') < Count(line, '#'))
  {
    hide Kept, TagList, HashSafe, Count, TrimRight;
    var line := TagsLine(tags);
    TagsLead();
    assert line[..11] == TAGS && line[11..] == TagList(tags) + "]";
    assert line[0..11] == TAGS && line[10] == '[';
    KeptPlain(line, 0, 11, TAGS, false);
    KeptTags(line, 11, tags, false);
    KeptOrCut(line, 11, false);
    var rest := Kept(line, 11, false);
    TrimBehind(TAGS, rest);
    assert line == TAGS + line[11..];
    CountJoin(TAGS, line[11..], '#');
    CountJoin(TAGS, rest, '#');
    var kept := StripComment(line);
    CountPart(TAGS + rest, 0, |kept|, '#');
    assert kept == (TAGS + rest)[0..|kept|];
    if HashSafe(tags, false) {
      WholeTrimmed(line);
    }
  }

  lemma {:induction false} TrimBehind(lead: string, rest: string)
    requires lead != "" && !IsTrailing(lead[|lead| - 1])
    ensures lead <= TrimRight(lead + rest, IsTrailing)
    decreases rest
  {
    var s := lead + rest;
    if rest == "" {
      assert s == lead;
    } else if IsTrailing(s[|s| - 1]) {
      assert s[..|s| - 1] == lead + rest[..|rest| - 1];
      TrimBehind(lead, rest[..|rest| - 1]);
    }
  }

  lemma WholeTrimmed(line: string)
    requires line != "" && !IsTrailing(line[|line| - 1])
    ensures TrimRight(line, IsTrailing) == line
  {
  }

  // ---------------------------------------------------------------- what is read

  lemma {:induction false} TagListTrimmed(tags: seq<string>)
    requires tags != []
    ensures Trimmed(TagList(tags)) && TagList(tags) != ""
    decreases tags
  {
    hide Quoted;
    QuotedEnds(tags[0]);
    if |tags| > 1 {
      TagListTrimmed(tags[1..]);
    }
  }

  /** One printed tag, with or without the blank in front, is read back. */
  lemma TagRead(t: string)
    requires '\n' !in t && ',' !in t
    ensures Unquote(TrimSpace(Quoted(t))) == t && Unquote(TrimSpace(" " + Quoted(t))) == t
    ensures ',' !in Quoted(t) && ',' !in " " + Quoted(t)
  {
    hide Unquote, TrimSpace;
    QuotedEnds(t);
    TrimTrimmed(Quoted(t));
    QuoteRoundTrip(t);
    EscapedKeeps(t, ',');
  }

  lemma {:induction false} TagListSplit(tags: seq<string>, pad: string)
    requires tags != [] && SingleLine(tags) && CommaFree(tags)
    requires pad == "" || pad == " "
    ensures Unquoted(Split(pad + TagList(tags), ',')) == tags
    decreases tags
  {
    hide Quoted, Unquote, TrimSpace, Split, TagList;
    TagListParts(tags);
    var q := pad + Quoted(tags[0]);
    TagRead(tags[0]);
    assert "" + Quoted(tags[0]) == Quoted(tags[0]);
    if |tags| == 1 {
      SplitOne(q, ',');
      assert pad + TagList(tags) == q;
    } else {
      var rest := " " + TagList(tags[1..]);
      TagListSplit(tags[1..], " ");
      assert pad + TagList(tags) == q + [','] + rest;
      SplitCons(q, ',', rest);
      UnquotedCons(q, Split(rest, ','));
    }
  }

  /** The printed array, when it reaches the array reader whole, is cut at the commas. */
  lemma ArrayParts(tags: seq<string>)
    ensures InlineArray(TrimSpace(" [" + TagList(tags) + "]")) ==
      Some(if tags == [] then [] else Unquoted(Split(TagList(tags), ',')))
  {
    hide TrimSpace, TagList, Split;
    var list := TagList(tags);
    var t := "[" + list + "]";
    assert " [" + list + "]" == " " + t;
    TrimTrimmed(t);
    assert t[1..|t| - 1] == list;
    TagListParts(tags);
    if tags != [] {
      TagListTrimmed(tags);
    }
    TrimTrimmed(list);
  }

  /** An array of single-line tags is read back if and only if no tag holds a comma:
      commas split, quoted or not. */
  lemma ArrayReadIff(tags: seq<string>)
    requires SingleLine(tags)
    ensures InlineArray(TrimSpace(" [" + TagList(tags) + "]")) == Some(tags) <==> CommaFree(tags)
  {
    hide TrimSpace, TagList, Split, Unquote, CountAll, Count;
    ArrayParts(tags);
    if tags != [] {
      CountSplit(TagList(tags), ',', ',');
      CountTags(tags, ',');
      NoneOfAll(tags, ',');
      if CommaFree(tags) {
        TagListSplit(tags, "");
        assert "" + TagList(tags) == TagList(tags);
      }
    }
  }

  /** A printed tags line with single-line tags is read back if and only if no tag holds
      a comma and none holds a `#` behind an odd number of tags that end in a backslash. */
  lemma TagsReadIff(tags: seq<string>)
    requires SingleLine(tags)
    ensures TagsRead(tags) == Some(tags) <==> Readable(tags)
  {
    hide TrimSpace, TagList, Split, Unquote, CountAll, Count, HashSafe, StripComment, InlineArray;
    LineKept(tags);
    TagsLead();
    var kept := StripComment(TagsLine(tags));
    if HashSafe(tags, false) {
      assert TagsLine(tags)[9..] == TAGS[9..] + (TagList(tags) + "]");
      ArrayReadIff(tags);
      assert " [" + TagList(tags) + "]" == TAGS[9..] + (TagList(tags) + "]");
    } else if TagsRead(tags) == Some(tags) {
      CountRead(TrimSpace(kept[9..]));
      CountTrim(kept[9..], '#');
      CountPart(kept, 9, |kept|, '#');
      assert kept[9..|kept|] == kept[9..];
      PrintedHashes(tags);
    }
  }

  lemma PrintedHashes(tags: seq<string>)
    ensures Count(TagsLine(tags), '#') == CountAll(tags, '#')
  {
    hide TagList;
    TagsLead();
    CountTags(tags, '#');
    CountJoin(TAGS + TagList(tags), "]", '#');
    CountJoin(TAGS, TagList(tags), '#');
    CountNone(TAGS, '#');
    assert "]"[1..] == "";
  }

  /** A tag with a comma, and a tag with a `#` behind one that ends in a backslash, are
      not read back; a last tag that ends in a backslash is. */
  lemma TagWitnesses()
    ensures TagsRead(["a,b"]) != Some(["a,b"])
    ensures TagsRead(["a\\", "b#"]) != Some(["a\\", "b#"])
    ensures TagsRead(["a#", "b\\"]) == Some(["a#", "b\\"])
  {
    hide TagsRead;
    var one, two, three := ["a,b"], ["a\\", "b#"], ["a#", "b\\"];
    TagsReadIff(one);
    assert one[0] in one && one[0][1] == ',';
    TagsReadIff(two);
    assert two[1..][0] == "b#" && "b#"[1] == '#';
    TagsReadIff(three);
    assert three[1..] == ["b\\"] && ["b\\"][1..] == [];
  }

  // ---------------------------------------------------------------- plain and single-quoted tags

  function AllShown(tags: seq<string>, k: Style): (r: seq<string>)
    ensures |r| == |tags| && forall i :: 0 <= i < |tags| ==> r[i] == Shown(tags[i], k)
  {
    seq(|tags|, i requires 0 <= i < |tags| => Shown(tags[i], k))
  }

  /** A tags line in any of the three styles. */
  function ShownLine(tags: seq<string>, k: Style): string {
    if k.Double? then TagsLine(tags) else TAGS + Join(AllShown(tags, k), ", ") + "]"
  }

  predicate ShowableTags(tags: seq<string>, k: Style) {
    forall t :: t in tags ==> Showable(t, k) && (k.Plain? ==> t != "")
  }

  /** Which tags are read back from a line in that style. */
  predicate ReadableAs(tags: seq<string>, k: Style) {
    CommaFree(tags) && (k.Double? ==> HashSafe(tags, false))
  }

  lemma ShownCons(tags: seq<string>, k: Style)
    requires tags != []
    ensures AllShown(tags, k)[0] == Shown(tags[0], k) && AllShown(tags, k)[1..] == AllShown(tags[1..], k)
    ensures |tags| == 1 ==> Join(AllShown(tags, k), ", ") == Shown(tags[0], k)
    ensures |tags| > 1 ==>
      Join(AllShown(tags, k), ", ") == Shown(tags[0], k) + ", " + Join(AllShown(tags[1..], k), ", ")
  {
  }

  lemma CountShown(t: string, k: Style, c: char)
    requires !k.Double? && c != '\''
    ensures Count(Shown(t, k), c) == Count(t, c)
  {
    if k.Single? {
      CountJoin("'" + t, "'", c);
      CountJoin("'", t, c);
      assert "'"[1..] == "";
    }
  }

  lemma {:induction false} CountJoined(tags: seq<string>, k: Style, c: char)
    requires !k.Double? && (c == ',' || c == '#')
    ensures Count(Join(AllShown(tags, k), ", "), c) ==
      CountAll(tags, c) + if c == ',' && tags != [] then |tags| - 1 else 0
    decreases tags
  {
    hide Shown, Join, AllShown, Count;
    if tags == [] {
      JoinNone(k, c);
    } else {
      ShownCons(tags, k);
      CountShown(tags[0], k, c);
      if |tags| == 1 {
        assert tags[1..] == [];
      } else {
        CountJoined(tags[1..], k, c);
        CountJoin(Shown(tags[0], k) + ", ", Join(AllShown(tags[1..], k), ", "), c);
        CountJoin(Shown(tags[0], k), ", ", c);
        CountSeparator(c);
      }
    }
  }

  lemma CountSeparator(c: char)
    requires c == ',' || c == '#'
    ensures Count(", ", c) == if c == ',' then 1 else 0
  {
    assert ", "[1..] == " " && " "[1..] == "";
  }

  lemma JoinNone(k: Style, c: char)
    ensures Join(AllShown([], k), ", ") == "" && Count("", c) == 0
  {
  }

  lemma ShownTag(t: string, k: Style)
    requires !k.Double? && Showable(t, k) && (k.Plain? ==> t != "")
    ensures Unquote(TrimSpace(Shown(t, k))) == t && Unquote(TrimSpace(" " + Shown(t, k))) == t
    ensures Shown(t, k) != "" && Trimmed(Shown(t, k))
    ensures ',' !in t ==> ',' !in Shown(t, k)
  {
    hide Unquote, TrimSpace;
    ShownRead(t, k);
    TrimTrimmed(Shown(t, k));
  }

  lemma {:induction false} JoinedTrimmed(tags: seq<string>, k: Style)
    requires !k.Double? && tags != [] && ShowableTags(tags, k)
    ensures var list := Join(AllShown(tags, k), ", "); list != "" && Trimmed(list)
    decreases tags
  {
    hide Shown, Join, AllShown, Showable;
    ShownCons(tags, k);
    assert tags[0] in tags;
    ShownTag(tags[0], k);
    if |tags| > 1 {
      JoinedTrimmed(tags[1..], k);
    }
  }

  lemma {:induction false} JoinedSplit(tags: seq<string>, k: Style, pad: string)
    requires !k.Double? && tags != [] && ShowableTags(tags, k) && CommaFree(tags)
    requires pad == "" || pad == " "
    ensures Unquoted(Split(pad + Join(AllShown(tags, k), ", "), ',')) == tags
    decreases tags
  {
    hide Shown, Join, AllShown, Showable, Unquote, TrimSpace, Split;
    ShownCons(tags, k);
    assert tags[0] in tags;
    ShownTag(tags[0], k);
    var q := pad + Shown(tags[0], k);
    assert "" + Shown(tags[0], k) == Shown(tags[0], k);
    if |tags| == 1 {
      SplitOne(q, ',');
    } else {
      var rest := " " + Join(AllShown(tags[1..], k), ", ");
      JoinedSplit(tags[1..], k, " ");
      assert pad + Join(AllShown(tags, k), ", ") == q + [','] + rest;
      SplitCons(q, ',', rest);
      UnquotedCons(q, Split(rest, ','));
    }
  }

  /** A line of such tags reaches the array reader whole. */
  lemma JoinedRead(tags: seq<string>, k: Style)
    requires !k.Double? && ShowableTags(tags, k)
    ensures StripComment(ShownLine(tags, k)) == ShownLine(tags, k)
    ensures LineRead(ShownLine(tags, k)) ==
      Some(if tags == [] then [] else Unquoted(Split(Join(AllShown(tags, k), ", "), ',')))
  {
    hide Shown, Join, AllShown, Showable, TrimSpace, Split, Unquoted, StripComment;
    var list, line := Join(AllShown(tags, k), ", "), ShownLine(tags, k);
    HashlessLine(tags, k);
    TagsLead();
    assert line[9..] == " " + ("[" + list + "]");
    var t := "[" + list + "]";
    TrimTrimmed(t);
    assert t[1..|t| - 1] == list;
    if tags == [] {
      JoinNone(k, ',');
    } else {
      JoinedTrimmed(tags, k);
    }
    TrimTrimmed(list);
  }

  lemma HashlessLine(tags: seq<string>, k: Style)
    requires !k.Double? && ShowableTags(tags, k)
    ensures StripComment(ShownLine(tags, k)) == ShownLine(tags, k)
  {
    hide Shown, Join, AllShown, Kept;
    var list, line := Join(AllShown(tags, k), ", "), ShownLine(tags, k);
    CountJoined(tags, k, '#');
    NoneOfAll(tags, '#');
    CountNone(list, '#');
    TagsLead();
    StripHashless(line);
    assert line[|line| - 1] == ']';
  }

  /** A tags line in any style is read back if and only if no tag holds a comma and, in
      double quotes, none a `#` behind an odd number of tags that end in a backslash. */
  lemma ShownReadIff(tags: seq<string>, k: Style)
    requires ShowableTags(tags, k)
    ensures LineRead(ShownLine(tags, k)) == Some(tags) <==> ReadableAs(tags, k)
  {
    hide Split, Join, AllShown, Unquote, TrimSpace, LineRead, HashSafe, Count, CountAll;
    if k.Double? {
      TagsReadIff(tags);
    } else {
      var list := Join(AllShown(tags, k), ", ");
      JoinedRead(tags, k);
      if tags != [] {
        CountSplit(list, ',', ',');
        CountJoined(tags, k, ',');
        NoneOfAll(tags, ',');
        if CommaFree(tags) {
          JoinedSplit(tags, k, "");
          assert "" + list == list;
        }
      }
    }
  }
}
