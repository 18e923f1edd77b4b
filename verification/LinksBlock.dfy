/**
 What the links block of scripts/fix_grafana_infra_links.py says, read as JSON: the link
 to the dashboard before, the menu of all dashboards, and the link to the one behind.
*/
module LinksBlock {
  import opened Wrappers
  import opened LinksSpan
  import opened LinksJson

  // ---------------------------------------------------------------- strings

  function HexValue(c: char): Option<nat> {
    if '0' <= c <= '9' then Some((c - '0') as nat)
    else if 'a' <= c <= 'f' then Some((c - 'a') as nat + 10)
    else if 'A' <= c <= 'F' then Some((c - 'A') as nat + 10)
    else None
  }

  /** The character of a one-letter escape of section 7 of RFC 8259. */
  function Meant(letter: char): Option<char> {
    if letter == '"' || letter == '\\' || letter == '/' then Some(letter)
    else if letter == 'b' then Some(8 as char)
    else if letter == 'f' then Some(12 as char)
    else if letter == 'n' then Some(10 as char)
    else if letter == 'r' then Some(13 as char)
    else if letter == 't' then Some(9 as char)
    else None
  }

  /** The character of `\u` with four hexadecimal digits, surrogates left out. */
  function CodePoint(a: char, b: char, c: char, d: char): Option<char> {
    match (HexValue(a), HexValue(b), HexValue(c), HexValue(d))
    case (Some(i), Some(j), Some(k), Some(l)) =>
      var n := ((i * 16 + j) * 16 + k) * 16 + l;
      if n < 0xD800 then Some(n as char) else None
    case _ => None
  }

  function Ahead(c: Option<char>, rest: Option<string>): Option<string> {
    if c.Some? && rest.Some? then Some([c.value] + rest.value) else None
  }

  /** The text a JSON string stands for, by section 7 of RFC 8259. */
  function Decoded(raw: string): Option<string> {
    if raw == "" then Some("")
    else if raw[0] as int < 32 || raw[0] == '"' then None
    else if raw[0] != '\\' then Ahead(Some(raw[0]), Decoded(raw[1..]))
    else if |raw| >= 6 && raw[1] == 'u' then
      Ahead(CodePoint(raw[2], raw[3], raw[4], raw[5]), Decoded(raw[6..]))
    else if |raw| >= 2 then Ahead(Meant(raw[1]), Decoded(raw[2..]))
    else None
  }

  lemma DecodedChar(c: char, rest: string)
    requires DumpChar(c) == [c] && c != '"' && c != '\\' && c as int >= 32
    ensures Decoded(DumpChar(c) + rest) == Ahead(Some(c), Decoded(rest))
  {
    var t := [c] + rest;
    assert t[1..] == rest;
  }

  lemma DecodedLetter(c: char, letter: char, rest: string)
    requires DumpChar(c) == ['\\', letter] && Meant(letter) == Some(c)
    ensures Decoded(DumpChar(c) + rest) == Ahead(Some(c), Decoded(rest))
  {
    var t := ['\\', letter] + rest;
    assert t[0] == '\\' && t[1] == letter && t[2..] == rest;
  }

  lemma DecodedCode(c: char, rest: string)
    requires |DumpChar(c)| == 6 && DumpChar(c)[0] == '\\' && DumpChar(c)[1] == 'u'
    requires var d := DumpChar(c); CodePoint(d[2], d[3], d[4], d[5]) == Some(c)
    ensures Decoded(DumpChar(c) + rest) == Ahead(Some(c), Decoded(rest))
  {
    hide DumpChar, CodePoint;
    var d := DumpChar(c);
    var t := d + rest;
    assert t[0] == d[0] && t[1] == d[1] && t[2] == d[2] && t[3] == d[3] && t[4] == d[4] && t[5] == d[5];
    assert t[6..] == rest;
  }

  lemma LowCode(c: char)
    requires c as int < 32 && c as int != 8 && c as int != 9 && c as int != 10 && c as int != 12 && c as int != 13
    ensures var d := DumpChar(c);
      |d| == 6 && d[0] == '\\' && d[1] == 'u' && CodePoint(d[2], d[3], d[4], d[5]) == Some(c)
  {
    var d, n := DumpChar(c), c as int;
    if n < 16 {
      HexBack(n);
      assert d == "\\u000" + [Hex(n)];
    } else {
      HexBack(n - 16);
      assert d == "\\u001" + [Hex(n - 16)];
    }
  }

  lemma HexBack(d: nat)
    requires d < 16
    ensures HexValue(Hex(d)) == Some(d)
  {
  }

  lemma OneDecoded(c: char, rest: string)
    ensures Decoded(DumpChar(c) + rest) == Ahead(Some(c), Decoded(rest))
  {
    hide Decoded, CodePoint;
    if c == '"' || c == '\\' {
      DecodedLetter(c, c, rest);
    } else if c as int >= 32 {
      DecodedChar(c, rest);
    } else if c as int == 8 {
      DecodedLetter(c, 'b', rest);
    } else if c as int == 9 {
      DecodedLetter(c, 't', rest);
    } else if c as int == 10 {
      DecodedLetter(c, 'n', rest);
    } else if c as int == 12 {
      DecodedLetter(c, 'f', rest);
    } else if c as int == 13 {
      DecodedLetter(c, 'r', rest);
    } else {
      LowCode(c);
      DecodedCode(c, rest);
    }
  }

  /** A dumped title stands for the title. */
  lemma {:induction false} DumpDecodes(title: string)
    ensures Decoded(Dump(title)) == Some(title)
    decreases title
  {
    hide Decoded, DumpChar;
    if title == "" {
      NothingDecoded();
    } else {
      DumpDecodes(title[1..]);
      OneDecoded(title[0], Dump(title[1..]));
      assert title == [title[0]] + title[1..];
    }
  }

  lemma NothingDecoded()
    ensures Decoded("") == Some("")
  {
  }

  /** Text without quotes, backslashes and control characters stands for itself. */
  lemma {:induction false} PlainDecodes(t: string)
    requires forall c :: c in t ==> c != '"' && c != '\\' && c as int >= 32
    ensures Decoded(t) == Some(t) && Raw(t)
    decreases t
  {
    if t != "" {
      assert t[0] in t;
      assert forall c :: c in t[1..] ==> c in t;
      PlainDecodes(t[1..]);
      assert t == [t[0]] + t[1..];
    }
  }

  lemma {:induction false} DumpRaw(title: string)
    ensures Raw(Dump(title))
    decreases title
  {
    hide DumpChar;
    if title != "" {
      DumpRaw(title[1..]);
      OneRaw(title[0], Dump(title[1..]));
    }
  }

  lemma OneRaw(c: char, rest: string)
    requires Raw(rest)
    ensures Raw(DumpChar(c) + rest)
  {
    var d := DumpChar(c);
    var t := d + rest;
    if d == [c] {
      assert t[1..] == rest;
    } else if |d| == 2 {
      assert t[2..] == rest;
    } else {
      HexPlain(c);
      RawAhead(d[5], rest);
      RawAhead(d[4], [d[5]] + rest);
      RawAhead(d[3], [d[4]] + ([d[5]] + rest));
      RawAhead(d[2], [d[3]] + ([d[4]] + ([d[5]] + rest)));
      assert t[2..] == [d[2]] + ([d[3]] + ([d[4]] + ([d[5]] + rest)));
    }
  }

  lemma RawAhead(c: char, rest: string)
    requires Raw(rest) && c != '"' && c != '\\' && c as int >= 32
    ensures Raw([c] + rest)
  {
    assert ([c] + rest)[1..] == rest;
  }

  lemma HexPlain(c: char)
    requires |DumpChar(c)| == 6
    ensures DumpChar(c)[0] == '\\' && DumpChar(c)[1] == 'u'
    ensures forall k :: 2 <= k < 6 ==> DumpChar(c)[k] != '"' && DumpChar(c)[k] != '\\' && DumpChar(c)[k] as int >= 32
  {
  }

  // ---------------------------------------------------------------- the tree of the block

  function ValueTree(v: Value): Json {
    match v
    case Word(t) => Scalar(t)
    case Str(t) => Text(t)
    case Title(t) => Text(Dump(t))
    case NoTags => List("", [])
    case OneTag(t) => List("", [Item("\n        ", Text(t), "\n      ")])
  }

  function MemberTree(f: Field, after: string): Member {
    Member("\n      ", f.key, "", Item(" ", ValueTree(f.value), after))
  }

  function MemberTrees(fs: seq<Field>): (r: seq<Member>)
    ensures |r| == |fs|
  {
    seq(|fs|, i requires 0 <= i < |fs| => MemberTree(fs[i], if i == |fs| - 1 then "\n    " else ""))
  }

  function ObjectTree(fs: seq<Field>): Json {
    Record("", MemberTrees(fs))
  }

  function BlockTree(prev: Entry, next: Entry): Json {
    List("", [Item("\n    ", ObjectTree(NeighbourLink("\U{25c0} Prev", prev.title, prev.uid)), ""),
              Item("\n    ", ObjectTree(HomeLink()), ""),
              Item("\n    ", ObjectTree(NeighbourLink("Next \U{25b6}", next.title, next.uid)), "\n  ")])
  }

  lemma OneItem(it: Item)
    ensures ItemsText([it]) == ItemText(it) && ItemsText([]) == ""
  {
  }

  lemma ValueTreeText(v: Value)
    ensures JsonText(ValueTree(v)) == ValueText(v)
  {
    hide Dump, ItemsText;
    OneItem(Item("", Text(""), ""));
    if v.OneTag? {
      TagTreeText(v.tag);
    } else if v.NoTags? {
      assert "[" + ("" + "") + "]" == "[]";
    }
  }

  lemma TagTreeText(t: string)
    ensures JsonText(ValueTree(OneTag(t))) == ValueText(OneTag(t))
  {
    hide JsonText;
    var before, after := "\n        ", "\n      ";
    ListOfOne(Item(before, Text(t), after));
    TextIs(t);
    Framed("[", before, "\"", t, after, "]");
    TagFrame();
  }

  lemma Framed(open: string, before: string, q: string, t: string, after: string, close: string)
    ensures open + (before + ((q + t + q) + after)) + close == (open + before + q) + t + (q + after + close)
  {
  }

  lemma TagFrame()
    ensures "[" + "\n        " + "\"" == "[\n        \"" && "\"" + "\n      " + "]" == "\"\n      ]"
  {
  }

  lemma TextIs(t: string)
    ensures JsonText(Text(t)) == "\"" + t + "\""
  {
  }

  lemma ListOfOne(it: Item)
    ensures JsonText(List("", [it])) == "[" + (it.before + (JsonText(it.value) + it.after)) + "]"
  {
    hide ItemsText;
    OneItem(it);
    assert "" + ItemText(it) == ItemText(it);
  }

  lemma MemberTreeText(f: Field, after: string)
    ensures MemberText(MemberTree(f, after)) == "\n" + FieldText(f) + after
  {
    hide ValueTree, ValueText;
    ValueTreeText(f.value);
    var key, v := Quoted(f.key), ValueText(f.value);
    assert "\n      " + (key + ("" + (":" + (" " + (v + after))))) == "\n" + ("      \"" + f.key + "\": " + v) + after;
  }

  lemma MembersFirst(fs: seq<Field>)
    requires fs != []
    ensures MemberTrees(fs)[0] == MemberTree(fs[0], if |fs| == 1 then "\n    " else "")
    ensures MemberTrees(fs)[1..] == MemberTrees(fs[1..])
  {
    var rest := fs[1..];
    forall i | 0 <= i < |rest|
      ensures MemberTrees(fs)[i + 1] == MemberTrees(rest)[i]
    {
    }
  }

  lemma {:induction false} MembersTreeText(fs: seq<Field>)
    requires fs != []
    ensures MembersText(MemberTrees(fs)) == "\n" + FieldsText(fs) + "\n    "
    decreases fs
  {
    hide MemberTrees, MemberTree, FieldText;
    MembersFirst(fs);
    if |fs| == 1 {
      MemberTreeText(fs[0], "\n    ");
    } else {
      MemberTreeText(fs[0], "");
      MembersTreeText(fs[1..]);
      var a, b := FieldText(fs[0]), FieldsText(fs[1..]);
      assert ("\n" + a + "") + ("," + ("\n" + b + "\n    ")) == "\n" + (a + ",\n" + b) + "\n    ";
    }
  }

  lemma ObjectTreeText(fs: seq<Field>)
    requires fs != []
    ensures "    " + JsonText(ObjectTree(fs)) == ObjectText(fs)
  {
    hide MemberTrees, MembersText, FieldsText;
    MembersTreeText(fs);
    var t := FieldsText(fs);
    assert "    " + ("{" + ("" + ("\n" + t + "\n    ")) + "}") == "    {\n" + t + "\n    }";
  }

  lemma ThreeItems(a: Item, b: Item, c: Item)
    ensures ItemsText([a, b, c]) == ItemText(a) + ("," + (ItemText(b) + ("," + ItemText(c))))
  {
    hide ItemText;
    TwoItems(b, c);
    assert [a, b, c][1..] == [b, c];
  }

  lemma TwoItems(a: Item, b: Item)
    ensures ItemsText([a, b]) == ItemText(a) + ("," + ItemText(b))
  {
    hide ItemText;
    OneItem(b);
    assert [a, b][1..] == [b];
  }

  lemma LinksNotEmpty(caption: string, title: string, uid: string)
    ensures NeighbourLink(caption, title, uid) != [] && HomeLink() != []
  {
  }

  lemma BlockTreeText(prev: Entry, next: Entry)
    ensures Block(prev, next) == "  \"links\": " + JsonText(BlockTree(prev, next))
  {
    hide ObjectTree, ObjectText, NeighbourLink, HomeLink;
    var before, after := "\U{25c0} Prev", "Next \U{25b6}";
    LinksNotEmpty(before, prev.title, prev.uid);
    LinksNotEmpty(after, next.title, next.uid);
    var x, y, z := NeighbourLink(before, prev.title, prev.uid), HomeLink(), NeighbourLink(after, next.title, next.uid);
    ObjectTreeText(x);
    ObjectTreeText(y);
    ObjectTreeText(z);
    var i, j := Item("\n    ", ObjectTree(x), ""), Item("\n    ", ObjectTree(y), "");
    var k := Item("\n    ", ObjectTree(z), "\n  ");
    ThreeItems(i, j, k);
    ItemLine(x, "");
    ItemLine(y, "");
    ItemLine(z, "\n  ");
    Bracketed(ObjectText(x), ObjectText(y), ObjectText(z));
  }

  lemma ItemLine(fs: seq<Field>, after: string)
    requires fs != []
    ensures ItemText(Item("\n    ", ObjectTree(fs), after)) == "\n" + ObjectText(fs) + after
  {
    hide ObjectTree, ObjectText;
    ObjectTreeText(fs);
    var t := JsonText(ObjectTree(fs));
    assert "\n    " + (t + after) == "\n" + ("    " + t) + after;
  }

  lemma Bracketed(a: string, b: string, c: string)
    ensures "  \"links\": " +
            ("[" + ("" + (("\n" + a + "") + ("," + (("\n" + b + "") + ("," + ("\n" + c + "\n  ")))))) + "]")
         == "  \"links\": [" + ("\n" + a + ",\n" + b + ",\n" + c + "\n  ") + "]"
  {
  }

  // ---------------------------------------------------------------- what the block says

  predicate IsWord(v: Json, word: string) {
    v == Scalar(word)
  }

  /** A string that stands for this text. */
  predicate Says(v: Json, t: string) {
    v.Text? && Decoded(v.raw) == Some(t)
  }

  /** A link to one dashboard: its caption, the title as tooltip, and the address. */
  predicate LinksTo(v: Json, caption: string, e: Entry) {
    && v.Record? && |v.members| == 10
    && Keys(v.members) == ["asDropdown", "icon", "includeVars", "keepTime", "tags", "targetBlank", "title", "tooltip",
                           "type", "url"]
    && IsWord(ValueOf(v, 0), "false") && Says(ValueOf(v, 1), "bolt")
    && IsWord(ValueOf(v, 2), "true") && IsWord(ValueOf(v, 3), "true")
    && ValueOf(v, 4).List? && ValueOf(v, 4).items == []
    && IsWord(ValueOf(v, 5), "false") && Says(ValueOf(v, 6), caption) && Says(ValueOf(v, 7), e.title)
    && Says(ValueOf(v, 8), "link") && Says(ValueOf(v, 9), "/d/" + e.uid)
  }

  /** The drop-down menu of all dashboards with the tag. */
  predicate IsMenu(v: Json) {
    && v.Record? && |v.members| == 8
    && Keys(v.members) == ["asDropdown", "icon", "includeVars", "keepTime", "tags", "targetBlank", "title", "type"]
    && IsWord(ValueOf(v, 0), "true") && Says(ValueOf(v, 1), "external link")
    && IsWord(ValueOf(v, 2), "true") && IsWord(ValueOf(v, 3), "true")
    && ValueOf(v, 4).List? && |ValueOf(v, 4).items| == 1 && Says(ValueOf(v, 4).items[0].value, "teslasync")
    && IsWord(ValueOf(v, 5), "false") && Says(ValueOf(v, 6), "\U{26a1} TeslaSync") && Says(ValueOf(v, 7), "dashboards")
  }

  function Keys(ms: seq<Member>): (r: seq<string>)
    ensures |r| == |ms|
  {
    seq(|ms|, i requires 0 <= i < |ms| => ms[i].key)
  }

  function ValueOf(v: Json, i: nat): Json
    requires v.Record? && i < |v.members|
  {
    v.members[i].item.value
  }

  lemma KeysOf(fs: seq<Field>)
    ensures Keys(MemberTrees(fs)) == FieldKeys(fs)
    ensures forall i :: 0 <= i < |fs| ==> ValueOf(ObjectTree(fs), i) == ValueTree(fs[i].value)
  {
  }

  function FieldKeys(fs: seq<Field>): (r: seq<string>)
    ensures |r| == |fs|
  {
    seq(|fs|, i requires 0 <= i < |fs| => fs[i].key)
  }

  lemma NeighbourKeys(caption: string, title: string, uid: string)
    ensures FieldKeys(NeighbourLink(caption, title, uid)) ==
      ["asDropdown", "icon", "includeVars", "keepTime", "tags", "targetBlank", "title", "tooltip", "type", "url"]
  {
  }

  lemma MenuKeys()
    ensures FieldKeys(HomeLink()) ==
      ["asDropdown", "icon", "includeVars", "keepTime", "tags", "targetBlank", "title", "type"]
  {
  }

  lemma SaysPlain(t: string)
    requires Bare(t) && Printable(t)
    ensures Says(Text(t), t) && Raw(t)
  {
    PlainDecodes(t);
  }

  lemma WordsPlain()
    ensures Says(Text("bolt"), "bolt") && Says(Text("link"), "link") && Says(Text("external link"), "external link")
    ensures Says(Text("teslasync"), "teslasync") && Says(Text("dashboards"), "dashboards")
  {
    hide Says, Bare, Printable;
    ValuesSafe();
    WordsPrintable();
    SaysPlain("bolt");
    SaysPlain("link");
    SaysPlain("external link");
    SaysPlain("teslasync");
    SaysPlain("dashboards");
  }

  lemma WordsPrintable()
    ensures Printable("bolt") && Printable("link") && Printable("external link")
    ensures Printable("teslasync") && Printable("dashboards")
  {
  }

  lemma CaptionsPrintable()
    ensures Printable("\U{25c0} Prev") && Printable("Next \U{25b6}") && Printable("\U{26a1} TeslaSync")
  {
  }

  lemma CaptionsPlain()
    ensures Says(Text("\U{25c0} Prev"), "\U{25c0} Prev") && Says(Text("Next \U{25b6}"), "Next \U{25b6}")
    ensures Says(Text("\U{26a1} TeslaSync"), "\U{26a1} TeslaSync")
  {
    hide Says, Bare, Printable;
    CaptionsBare();
    CaptionsPrintable();
    SaysPlain("\U{25c0} Prev");
    SaysPlain("Next \U{25b6}");
    SaysPlain("\U{26a1} TeslaSync");
  }

  lemma UrlPlain(uid: string)
    requires PlainUid(uid)
    ensures Says(Text("/d/" + uid), "/d/" + uid)
  {
    hide Decoded;
    PlainDecodes("/d/" + uid);
  }

  lemma NeighbourSays(caption: string, e: Entry)
    requires PlainUid(e.uid) && Says(Text(caption), caption)
    ensures LinksTo(ObjectTree(NeighbourLink(caption, e.title, e.uid)), caption, e)
  {
    hide Decoded, Dump, PlainUid, FieldKeys, Keys;
    var fs := NeighbourLink(caption, e.title, e.uid);
    KeysOf(fs);
    NeighbourKeys(caption, e.title, e.uid);
    WordsPlain();
    DumpDecodes(e.title);
    UrlPlain(e.uid);
  }

  lemma MenuSays()
    ensures IsMenu(ObjectTree(HomeLink()))
  {
    hide Decoded, FieldKeys, Keys;
    KeysOf(HomeLink());
    MenuKeys();
    WordsPlain();
    CaptionsPlain();
  }

  lemma ValueValid(v: Value)
    requires v.Word? ==> v.text == "true" || v.text == "false"
    requires v.Str? ==> Raw(v.text)
    requires v.OneTag? ==> Raw(v.tag)
    ensures Valid(ValueTree(v))
  {
    hide Raw, Dump;
    match v
    case Title(t) => DumpRaw(t);
    case OneTag(t) => assert ValidItem(Item("\n        ", Text(t), "\n      "));
    case _ =>
  }

  predicate ValidField(f: Field) {
    && Raw(f.key) && (f.value.Word? ==> f.value.text == "true" || f.value.text == "false")
    && (f.value.Str? ==> Raw(f.value.text)) && (f.value.OneTag? ==> Raw(f.value.tag))
  }

  lemma ObjectValid(fs: seq<Field>)
    requires forall f :: f in fs ==> ValidField(f)
    ensures Valid(ObjectTree(fs))
  {
    hide Raw, ValueTree;
    forall i | 0 <= i < |fs|
      ensures ValidMember(MemberTrees(fs)[i])
    {
      assert fs[i] in fs;
      ValueValid(fs[i].value);
    }
  }

  lemma KeysPrintable()
    ensures Printable("asDropdown") && Printable("icon") && Printable("includeVars") && Printable("keepTime")
  {
  }

  lemma MoreKeysPrintable()
    ensures Printable("tags") && Printable("targetBlank") && Printable("title")
    ensures Printable("tooltip") && Printable("type") && Printable("url")
  {
  }

  lemma KeysRaw()
    ensures Raw("asDropdown") && Raw("icon") && Raw("includeVars") && Raw("keepTime")
  {
    hide Raw, Says, Bare, Printable;
    KeysBare();
    KeysPrintable();
    SaysPlain("asDropdown");
    SaysPlain("icon");
    SaysPlain("includeVars");
    SaysPlain("keepTime");
  }

  lemma MoreKeysRaw()
    ensures Raw("tags") && Raw("targetBlank") && Raw("title") && Raw("tooltip") && Raw("type") && Raw("url")
  {
    hide Raw, Says, Bare, Printable;
    MoreKeysBare();
    MoreKeysPrintable();
    SaysPlain("tags");
    SaysPlain("targetBlank");
    SaysPlain("title");
    SaysPlain("tooltip");
    SaysPlain("type");
    SaysPlain("url");
  }

  lemma WordsRaw()
    ensures Raw("bolt") && Raw("link") && Raw("external link") && Raw("teslasync") && Raw("dashboards")
  {
    hide Raw, Says, Bare, Printable;
    ValuesSafe();
    WordsPrintable();
    SaysPlain("bolt");
    SaysPlain("link");
    SaysPlain("external link");
    SaysPlain("teslasync");
    SaysPlain("dashboards");
  }

  lemma CaptionsRaw()
    ensures Raw("\U{25c0} Prev") && Raw("Next \U{25b6}") && Raw("\U{26a1} TeslaSync")
  {
    hide Raw, Says, Bare, Printable;
    CaptionsBare();
    CaptionsPrintable();
    SaysPlain("\U{25c0} Prev");
    SaysPlain("Next \U{25b6}");
    SaysPlain("\U{26a1} TeslaSync");
  }

  lemma NeighbourFields(caption: string, title: string, uid: string)
    requires Raw("/d/" + uid) && Raw(caption)
    ensures forall f :: f in NeighbourLink(caption, title, uid) ==> ValidField(f)
  {
    hide Raw;
    KeysRaw();
    MoreKeysRaw();
    WordsRaw();
  }

  lemma UrlRaw(uid: string)
    requires PlainUid(uid)
    ensures Raw("/d/" + uid)
  {
    hide Raw, Decoded;
    PlainDecodes("/d/" + uid);
  }

  lemma NeighbourValid(caption: string, title: string, uid: string)
    requires PlainUid(uid) && Raw(caption)
    ensures Valid(ObjectTree(NeighbourLink(caption, title, uid)))
  {
    hide Raw, Valid, ObjectTree, NeighbourLink, ValidField, PlainUid;
    UrlRaw(uid);
    NeighbourFields(caption, title, uid);
    ObjectValid(NeighbourLink(caption, title, uid));
  }

  lemma MenuFields()
    ensures forall f :: f in HomeLink() ==> ValidField(f)
  {
    hide Raw;
    KeysRaw();
    MoreKeysRaw();
    WordsRaw();
    CaptionsRaw();
  }

  lemma MenuValid()
    ensures Valid(ObjectTree(HomeLink()))
  {
    hide Raw, Valid, ObjectTree, HomeLink, ValidField;
    MenuFields();
    ObjectValid(HomeLink());
  }

  /** The rendered block is the links key with an array of three objects: a link to the
      previous dashboard, the menu, and a link to the next dashboard, whatever the titles
      hold. */
  lemma BlockMeans(prev: Entry, next: Entry) returns (v: Json)
    requires PlainUid(prev.uid) && PlainUid(next.uid)
    ensures Valid(v) && Block(prev, next) == "  \"links\": " + JsonText(v)
    ensures v.List? && |v.items| == 3
    ensures LinksTo(v.items[0].value, "\U{25c0} Prev", prev)
    ensures IsMenu(v.items[1].value)
    ensures LinksTo(v.items[2].value, "Next \U{25b6}", next)
  {
    hide Raw, PlainUid, ObjectTree, NeighbourLink, HomeLink, LinksTo, IsMenu, Block, JsonText, Says;
    v := BlockTree(prev, next);
    BlockTreeText(prev, next);
    CaptionsRaw();
    CaptionsPlain();
    NeighbourSays("\U{25c0} Prev", prev);
    MenuSays();
    NeighbourSays("Next \U{25b6}", next);
    NeighbourValid("\U{25c0} Prev", prev.title, prev.uid);
    MenuValid();
    NeighbourValid("Next \U{25b6}", next.title, next.uid);
  }
}
