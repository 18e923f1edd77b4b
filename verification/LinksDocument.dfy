/**
 Whole dashboards: in any JSON text the first links key that
 scripts/fix_grafana_infra_links.py finds is a key of an object, and its value decides
 what becomes of the file.
*/
module LinksDocument {
  import opened Wrappers
  import opened PyStrings
  import opened LinksSpan
  import opened LinksSecondRun
  import opened LinksJson

  // ---------------------------------------------------------------- keys in a text

  ghost predicate KeyParts(u: string, gap: string, v: Json, post: string) {
    Blank(gap) && Valid(v) && u == Needle() + gap + (JsonText(v) + post)
  }

  /** The text begins with a links key and a value. */
  ghost predicate KeyValue(u: string) {
    exists gap, v, post :: KeyParts(u, gap, v, post)
  }

  ghost predicate KeyGood(s: string, k: nat) {
    k <= |s| && Needle() <= s[k..] ==> KeyValue(s[k..])
  }

  /** Every needle that begins in `a`, with `b` behind it, is a key with a value. */
  ghost predicate KeysGood(a: string, b: string) {
    forall k: nat :: k < |a| ==> KeyGood(a + b, k)
  }

  lemma Join(a: string, b: string, c: string)
    requires KeysGood(a, b + c) && KeysGood(b, c)
    ensures KeysGood(a + b, c)
  {
    hide KeyValue, Needle;
    var s := (a + b) + c;
    assert s == a + (b + c);
    forall k: nat | k < |a + b|
      ensures KeyGood(s, k)
    {
      if k >= |a| {
        assert KeyGood(b + c, k - |a|);
        assert s[k..] == (b + c)[k - |a|..];
      }
    }
  }

  lemma NoNewline(a: string, b: string)
    requires '\n' !in a
    ensures KeysGood(a, b)
  {
    hide Needle, KeyValue;
    NeedleShape();
    forall k: nat | k < |a|
      ensures KeyGood(a + b, k)
    {
      assert (a + b)[k..][0] == a[k];
    }
  }

  /** The needle without its indentation. */
  function KeyWord(): string {
    "\"links\":"
  }

  lemma KeyWordShape()
    ensures |KeyWord()| == 8 && KeyWord() == Needle()[3..] && Needle()[1] == ' ' && Needle()[2] == ' '
    ensures KeyWord()[0] == '"' && KeyWord()[6] == '"' && KeyWord()[7] == ':'
    ensures forall k :: 1 <= k < 6 ==> 'a' <= KeyWord()[k] <= 'z'
  {
  }

  predicate Solid(b: string) {
    b == "" || !Blank([b[0]])
  }

  lemma BlankCells(g: string)
    requires Blank(g)
    ensures forall i :: 0 <= i < |g| ==> g[i] != '"' && g[i] != ':'
  {
    assert forall i :: 0 <= i < |g| ==> g[i] in g;
  }

  lemma SolidCell(b: string)
    requires Solid(b) && b != ""
    ensures b[0] != ' '
  {
    assert [b[0]][0] == b[0];
  }

  /** A needle that begins in blanks ends them three characters later. */
  lemma GapKey(g: string, b: string, k: nat)
    requires Blank(g) && Solid(b) && k < |g| && Needle() <= (g + b)[k..]
    ensures k + 3 == |g| && KeyWord() <= b
  {
    hide Needle, KeyWord;
    NeedleShape();
    KeyWordShape();
    var s := g + b;
    OccursChars(s, Needle(), k);
    assert s[k..k + 11] == s[k..][..11] == Needle();
    assert s[k + 1] == ' ' && s[k + 2] == ' ' && s[k + 3] == '"';
    BlankCells(g);
    assert k + 3 >= |g|;
    SolidCell(b);
    assert b[0] == s[|g|];
    assert b[..8] == s[k + 3..k + 11] == Needle()[3..];
  }

  lemma GapGood(g: string, b: string)
    requires Blank(g) && Solid(b) && !(KeyWord() <= b)
    ensures KeysGood(g, b)
  {
    hide Needle, KeyWord, Blank, Solid, KeyValue;
    forall k: nat | k < |g|
      ensures KeyGood(g + b, k)
    {
      if Needle() <= (g + b)[k..] {
        GapKey(g, b, k);
      }
    }
  }

  // ---------------------------------------------------------------- strings

  /** A quote inside a string stands behind a backslash. */
  lemma {:induction false} RawQuote(t: string, k: nat)
    requires Raw(t) && k < |t| && t[k] == '"'
    ensures k > 0 && t[k - 1] == '\\'
    decreases |t|
  {
    if t[0] == '\\' {
      if k > 1 {
        RawQuote(t[2..], k - 2);
      }
    } else {
      RawQuote(t[1..], k - 1);
    }
  }

  lemma {:induction false} RawLine(t: string)
    requires Raw(t)
    ensures '\n' !in t
    decreases |t|
  {
    if t != "" {
      if t[0] == '\\' {
        RawLine(t[2..]);
        assert t == [t[0], t[1]] + t[2..];
      } else {
        RawLine(t[1..]);
        assert t == [t[0]] + t[1..];
      }
    }
  }

  /** A string that begins like the key is the key, and a colon follows. */
  lemma KeyIsLinks(raw: string, w: string)
    requires Raw(raw) && KeyWord() <= Quoted(raw) + w
    ensures |raw| == 5 && w != "" && w[0] == ':'
  {
    hide KeyWord, Raw;
    KeyWordShape();
    var u := Quoted(raw) + w;
    assert forall k :: 0 <= k < 8 ==> u[k] == KeyWord()[k];
    assert u[|raw| + 1] == '"' && forall k :: 0 <= k < |raw| ==> u[k + 1] == raw[k];
    if |raw| > 5 {
      RawQuote(raw, 5);
    }
    assert u[7] == w[0];
  }

  // ---------------------------------------------------------------- values

  lemma FirstOfScalar(v: Json)
    requires Valid(v) && v.Scalar?
    ensures JsonText(v)[0] != '"'
  {
    assert v.text[0] in v.text;
  }

  predicate NotColon(t: string) {
    t == "" || t[0] != ':'
  }

  /** What may follow an item. */
  predicate Stop(t: string) {
    t == "" || t[0] == ',' || t[0] == ']' || t[0] == '}'
  }

  /** A value, when no colon follows it, does not begin like the key. */
  lemma ValueNoKey(v: Json, rest: string)
    requires Valid(v) && NotColon(rest)
    ensures var u := JsonText(v) + rest; Solid(u) && !(KeyWord() <= u)
  {
    hide KeyWord, Raw, ItemsText, MembersText, ValidItem, ValidMember;
    KeyWordShape();
    ValueEnds(v);
    var u := JsonText(v) + rest;
    if KeyWord() <= u {
      assert u[0] == KeyWord()[0] == JsonText(v)[0];
      if v.Text? {
        KeyIsLinks(v.raw, rest);
      } else if v.Scalar? {
        FirstOfScalar(v);
      }
    }
  }

  lemma StopSolid(t: string)
    requires Stop(t)
    ensures Solid(t) && NotColon(t) && !(KeyWord() <= t)
  {
    assert t != "" ==> t[0] in [t[0]];
    assert KeyWord()[0] == '"';
  }

  lemma BlankNoColon(g: string, t: string)
    requires Blank(g) && NotColon(t)
    ensures NotColon(g + t)
  {
    assert g != "" ==> g[0] in g;
  }

  lemma {:induction false} ValueGood(v: Json, rest: string)
    requires Valid(v)
    ensures KeysGood(JsonText(v), rest)
    decreases v
  {
    hide KeysGood, Raw, Blank, ItemsText, MembersText, ValidItem, ValidMember;
    NoEntries();
    match v
    case Scalar(t) => NoNewline(t, rest);
    case Text(raw) =>
      RawLine(raw);
      NoNewline(Quoted(raw), rest);
    case List(gap, items) =>
      ItemsGood(items, "]" + rest);
      InnerGood("[", gap, ItemsText(items), "]", rest);
    case Record(gap, members) =>
      MembersGood(members, "}" + rest);
      InnerGood("{", gap, MembersText(members), "}", rest);
  }

  lemma NoEntries()
    ensures ItemsText([]) == "" && MembersText([]) == ""
  {
  }

  /** Between brackets there are blanks or entries. */
  lemma InnerGood(open: string, gap: string, inner: string, close: string, rest: string)
    requires '\n' !in open && (close == "]" || close == "}")
    requires Blank(gap) && (inner == "" || gap == "") && KeysGood(inner, close + rest)
    ensures KeysGood(open + (gap + inner) + close, rest)
  {
    hide KeysGood, Blank;
    StopSolid(close + rest);
    if inner == "" {
      assert inner + (close + rest) == close + rest;
      GapGood(gap, inner + (close + rest));
    } else {
      NoNewline(gap, inner + (close + rest));
    }
    Join(gap, inner, close + rest);
    NoNewline(close, rest);
    Join(gap + inner, close, rest);
    NoNewline(open, (gap + inner + close) + rest);
    Join(open, gap + inner + close, rest);
    assert open + (gap + inner) + close == open + (gap + inner + close);
  }

  lemma {:induction false} ItemGood(it: Item, rest: string)
    requires ValidItem(it) && Stop(rest)
    ensures KeysGood(ItemText(it), rest)
    decreases it
  {
    hide KeysGood, Blank, JsonText, Valid, KeyWord, Stop, Solid, NotColon;
    var t, after := JsonText(it.value), it.after;
    StopSolid(rest);
    BlankNoColon(after, rest);
    ValueNoKey(it.value, after + rest);
    ValueGood(it.value, after + rest);
    GapGood(after, rest);
    Join(t, after, rest);
    assert (t + after) + rest == t + (after + rest);
    GapGood(it.before, t + (after + rest));
    Join(it.before, t + after, rest);
  }

  lemma {:induction false} ItemsGood(items: seq<Item>, rest: string)
    requires (forall i :: 0 <= i < |items| ==> ValidItem(items[i])) && Stop(rest)
    ensures KeysGood(ItemsText(items), rest)
    decreases items
  {
    hide KeysGood, ItemText, ValidItem;
    if items == [] {
      NoNewline("", rest);
    } else if |items| == 1 {
      ItemGood(items[0], rest);
    } else {
      var more := ItemsText(items[1..]);
      ItemsGood(items[1..], rest);
      NoNewline(",", more + rest);
      Join(",", more, rest);
      assert ("," + more) + rest == "," + (more + rest);
      ItemGood(items[0], ("," + more) + rest);
      Join(ItemText(items[0]), "," + more, rest);
    }
  }

  /** The key of a member: a needle before it has the member's value behind it. */
  lemma KeyHere(m: Member, rest: string)
    requires ValidMember(m)
    ensures KeysGood(m.before, Quoted(m.key) + (m.colon + (":" + ItemText(m.item))) + rest)
  {
    hide JsonText, Valid, KeyWord, Raw, Needle, Blank;
    var w := m.colon + (":" + ItemText(m.item)) + rest;
    var b := Quoted(m.key) + (m.colon + (":" + ItemText(m.item))) + rest;
    assert b == Quoted(m.key) + w;
    QuoteSolid(b);
    forall k: nat | k < |m.before|
      ensures KeyGood(m.before + b, k)
    {
      if Needle() <= (m.before + b)[k..] {
        GapKey(m.before, b, k);
        KeyIsLinks(m.key, w);
        NoColonGap(m.colon, ":" + ItemText(m.item) + rest);
        assert w == m.colon + (":" + ItemText(m.item) + rest);
        MemberParts(m.before, m, rest, k);
      }
    }
  }

  lemma QuoteSolid(b: string)
    requires b != "" && b[0] == '"'
    ensures Solid(b)
  {
    assert b[0] in [b[0]];
  }

  lemma NoColonGap(g: string, t: string)
    requires Blank(g) && g + t != "" && (g + t)[0] == ':'
    ensures g == ""
  {
    BlankCells(g);
  }

  lemma MemberParts(g: string, m: Member, rest: string, k: nat)
    requires ValidMember(m) && |m.key| == 5 && m.colon == "" && k + 3 == |g|
    requires Needle() <= (g + (Quoted(m.key) + (m.colon + (":" + ItemText(m.item))) + rest))[k..]
    ensures KeyValue((g + (Quoted(m.key) + (m.colon + (":" + ItemText(m.item))) + rest))[k..])
  {
    hide JsonText, Valid, Raw, Needle, Blank;
    NeedleShape();
    var b := Quoted(m.key) + (m.colon + (":" + ItemText(m.item))) + rest;
    var u := (g + b)[k..];
    assert u == g[k..] + b;
    assert u[11..] == b[8..] == ItemText(m.item) + rest;
    var it := m.item;
    assert u == Needle() + it.before + (JsonText(it.value) + (it.after + rest));
    assert KeyParts(u, it.before, it.value, it.after + rest);
  }

  lemma {:induction false} MemberGood(m: Member, rest: string)
    requires ValidMember(m) && Stop(rest)
    ensures KeysGood(MemberText(m), rest)
    decreases m
  {
    hide KeysGood, Blank, Raw, ItemText, ValidItem, Stop;
    var q, i := Quoted(m.key), ItemText(m.item);
    ItemGood(m.item, rest);
    NoNewline(":", i + rest);
    Join(":", i, rest);
    ColonGap(m.colon, (":" + i) + rest);
    Join(m.colon, ":" + i, rest);
    RawLine(m.key);
    NoNewline(q, (m.colon + (":" + i)) + rest);
    Join(q, m.colon + (":" + i), rest);
    KeyHere(m, rest);
    Join(m.before, q + (m.colon + (":" + i)), rest);
  }

  lemma ColonGap(g: string, b: string)
    requires Blank(g) && b != "" && b[0] == ':'
    ensures KeysGood(g, b)
  {
    hide KeysGood;
    assert b[0] in [b[0]];
    assert KeyWord()[0] == '"';
    GapGood(g, b);
  }

  lemma {:induction false} MembersGood(ms: seq<Member>, rest: string)
    requires (forall i :: 0 <= i < |ms| ==> ValidMember(ms[i])) && Stop(rest)
    ensures KeysGood(MembersText(ms), rest)
    decreases ms
  {
    hide KeysGood, MemberText, ValidMember;
    if ms == [] {
      NoNewline("", rest);
    } else if |ms| == 1 {
      MemberGood(ms[0], rest);
    } else {
      var more := MembersText(ms[1..]);
      MembersGood(ms[1..], rest);
      NoNewline(",", more + rest);
      Join(",", more, rest);
      assert ("," + more) + rest == "," + (more + rest);
      MemberGood(ms[0], ("," + more) + rest);
      Join(MemberText(ms[0]), "," + more, rest);
    }
  }

  // ---------------------------------------------------------------- the file

  /** In a JSON text the first needle is a links key with a value behind it. */
  lemma FirstKeyOf(doc: Item) returns (pre: string, gap: string, v: Json, post: string)
    requires ValidItem(doc) && !NoNeedle(ItemText(doc))
    ensures FirstKey(pre, gap, v) && ItemText(doc) == KeyText(pre, gap, v, post)
  {
    hide ItemText, Needle, KeyValue, Find, OccursAt, Blank, Valid, JsonText;
    var text := ItemText(doc);
    var idx := Find(text, Needle(), 0).value;
    OccursBound(text, Needle(), idx);
    pre := text[..idx];
    KeyAt(doc, idx);
    gap, v, post := Witness(text[idx..]);
    assert text == pre + text[idx..];
    assert text == pre + Needle() + gap + (JsonText(v) + post);
    forall k: nat
      ensures !OccursAt(pre, Needle(), k)
    {
      if OccursAt(pre, Needle(), k) {
        OccursIn(pre, text, Needle(), k);
        OccursBound(pre, Needle(), k);
        NeedleShape();
      }
    }
  }

  lemma KeyAt(doc: Item, k: nat)
    requires ValidItem(doc) && OccursAt(ItemText(doc), Needle(), k)
    ensures k <= |ItemText(doc)| && KeyValue(ItemText(doc)[k..])
  {
    hide ItemText, Needle, KeyValue, ValidItem;
    var text := ItemText(doc);
    NeedleShape();
    ItemGood(doc, "");
    assert text + "" == text;
    assert text[k..][..11] == text[k..k + 11] == Needle();
    assert KeyGood(text, k);
  }

  lemma Witness(u: string) returns (gap: string, v: Json, post: string)
    requires KeyValue(u)
    ensures KeyParts(u, gap, v, post)
  {
    gap, v, post :| KeyParts(u, gap, v, post);
  }

  /** A dashboard with a links key: the search finds the key with its value, and the run
      writes the file with that value replaced and every other character kept, if and
      only if the value is an array. */
  lemma DashboardIff(doc: Item, prev: Entry, next: Entry)
    returns (pre: string, gap: string, v: Json, post: string)
    requires ValidItem(doc) && !NoNeedle(ItemText(doc))
    ensures FirstKey(pre, gap, v) && ItemText(doc) == KeyText(pre, gap, v, post)
    ensures Span(ItemText(doc)) == Some((|pre| + 1, ValueEnd(pre, gap, v))) <==> v.List?
    ensures Threaded(ItemText(doc), Block(prev, next)) == Some(Kept(pre, Block(prev, next), post)) <==> v.List?
  {
    hide JsonText, Valid, Needle, Blank, Span, Threaded, Block, Kept, NoNeedle, ItemText;
    pre, gap, v, post := FirstKeyOf(doc);
    SpanIsValueIff(pre, gap, v, post);
    ReplacementIff(pre, gap, v, post, prev, next);
  }
}
