/**
 What scripts/fix_grafana_infra_links.py finds and replaces in a JSON text it did not
 write itself: the array of the links key, if the value of that key is an array.
*/
module LinksJson {
  import opened Wrappers
  import opened PyStrings
  import opened LinksSpan
  import opened LinksSecondRun

  // ---------------------------------------------------------------- values and their text

  /** A JSON value with its layout: numbers and words as they stand, strings as they are
      written between their quotes. */
  datatype Json =
    | Scalar(text: string)
    | Text(raw: string)
    | List(gap: string, items: seq<Item>)
    | Record(gap: string, members: seq<Member>)

  /** A value between blanks. */
  datatype Item = Item(before: string, value: Json, after: string)

  /** `"key" colon : item` */
  datatype Member = Member(before: string, key: string, colon: string, item: Item)

  function JsonText(v: Json): string
    decreases v
  {
    match v
    case Scalar(t) => t
    case Text(raw) => Quoted(raw)
    case List(gap, items) => "[" + (gap + ItemsText(items)) + "]"
    case Record(gap, members) => "{" + (gap + MembersText(members)) + "}"
  }

  function Quoted(raw: string): string {
    "\"" + raw + "\""
  }

  function ItemText(it: Item): string
    decreases it
  {
    it.before + (JsonText(it.value) + it.after)
  }

  function ItemsText(items: seq<Item>): string
    decreases items
  {
    if items == [] then ""
    else if |items| == 1 then ItemText(items[0])
    else ItemText(items[0]) + ("," + ItemsText(items[1..]))
  }

  function MemberText(m: Member): string
    decreases m
  {
    m.before + (Quoted(m.key) + (m.colon + (":" + ItemText(m.item))))
  }

  function MembersText(ms: seq<Member>): string
    decreases ms
  {
    if ms == [] then ""
    else if |ms| == 1 then MemberText(ms[0])
    else MemberText(ms[0]) + ("," + MembersText(ms[1..]))
  }

  predicate Blank(t: string) {
    forall c :: c in t ==> c == ' ' || c == '\t' || c == '\n' || c == '\r'
  }

  predicate IsScalarChar(c: char) {
    'a' <= c <= 'z' || 'A' <= c <= 'Z' || '0' <= c <= '9' || c == '+' || c == '-' || c == '.'
  }

  /** What stands between the quotes of a string: no quote, no control character, and
      backslashes with the character behind them. */
  predicate Raw(t: string) {
    t == "" ||
    if t[0] == '\\' then |t| > 1 && t[1] as int >= 32 && Raw(t[2..])
    else t[0] != '"' && t[0] as int >= 32 && Raw(t[1..])
  }

  predicate Valid(v: Json)
    decreases v
  {
    match v
    case Scalar(t) => t != "" && forall c :: c in t ==> IsScalarChar(c)
    case Text(raw) => Raw(raw)
    case List(gap, items) =>
      Blank(gap) && (items != [] ==> gap == "") && forall i :: 0 <= i < |items| ==> ValidItem(items[i])
    case Record(gap, members) =>
      Blank(gap) && (members != [] ==> gap == "") && forall i :: 0 <= i < |members| ==> ValidMember(members[i])
  }

  predicate ValidItem(it: Item)
    decreases it
  {
    Blank(it.before) && Blank(it.after) && Valid(it.value)
  }

  predicate ValidMember(m: Member)
    decreases m
  {
    Blank(m.before) && Raw(m.key) && Blank(m.colon) && ValidItem(m.item)
  }

  // ---------------------------------------------------------------- scanning a value

  lemma BlankNeutral(t: string)
    requires Blank(t)
    ensures Neutral(t)
  {
    InertNeutral(t);
  }

  lemma SignNeutral(t: string)
    requires t == "," || t == ":" || t == "{" || t == "}"
    ensures Neutral(t)
  {
    InertNeutral(t);
  }

  lemma {:induction false} RunRaw(t: string, d: int)
    requires Raw(t)
    ensures Run(t, Scan(d, true, false)) == Some(Scan(d, true, false))
    decreases |t|
  {
    if t != "" {
      if t[0] == '\\' {
        assert t[1..][0] == t[1] && t[1..][1..] == t[2..];
        RunRaw(t[2..], d);
      } else {
        RunRaw(t[1..], d);
      }
    }
  }

  lemma RawNeutral(raw: string)
    requires Raw(raw)
    ensures Neutral(Quoted(raw))
  {
    forall d: int
      ensures Run(raw, Scan(d, true, false)) == Some(Scan(d, true, false))
    {
      RunRaw(raw, d);
    }
    QuotedNeutral(raw);
  }

  /** A value leaves the bracket scan as it found it, whatever brackets its strings hold. */
  lemma {:induction false} JsonNeutral(v: Json)
    requires Valid(v)
    ensures Neutral(JsonText(v))
    decreases v
  {
    hide Neutral, Quoted, Raw, Blank;
    match v
    case Scalar(t) => ScalarNeutral(t);
    case Text(raw) => RawNeutral(raw);
    case List(gap, items) =>
      BlankNeutral(gap);
      ItemsNeutral(items);
      NeutralJoin(gap, ItemsText(items));
      ArrayNeutral(gap + ItemsText(items));
    case Record(gap, members) =>
      BlankNeutral(gap);
      MembersNeutral(members);
      NeutralJoin(gap, MembersText(members));
      SignNeutral("{");
      SignNeutral("}");
      NeutralJoin("{", gap + MembersText(members));
      NeutralJoin("{" + (gap + MembersText(members)), "}");
  }

  lemma ScalarNeutral(t: string)
    requires forall c :: c in t ==> IsScalarChar(c)
    ensures Neutral(t)
  {
    InertNeutral(t);
  }

  lemma {:induction false} ItemNeutral(it: Item)
    requires ValidItem(it)
    ensures Neutral(ItemText(it))
    decreases it
  {
    hide Neutral, Blank;
    BlankNeutral(it.before);
    BlankNeutral(it.after);
    JsonNeutral(it.value);
    NeutralJoin(JsonText(it.value), it.after);
    NeutralJoin(it.before, JsonText(it.value) + it.after);
  }

  lemma {:induction false} ItemsNeutral(items: seq<Item>)
    requires forall i :: 0 <= i < |items| ==> ValidItem(items[i])
    ensures Neutral(ItemsText(items))
    decreases items
  {
    hide Neutral, ItemText, ValidItem;
    if items == [] {
      InertNeutral("");
    } else {
      ItemNeutral(items[0]);
      if |items| > 1 {
        ItemsNeutral(items[1..]);
        SignNeutral(",");
        NeutralJoin(",", ItemsText(items[1..]));
        NeutralJoin(ItemText(items[0]), "," + ItemsText(items[1..]));
      }
    }
  }

  lemma {:induction false} MemberNeutral(m: Member)
    requires ValidMember(m)
    ensures Neutral(MemberText(m))
    decreases m
  {
    hide Neutral, Blank, Raw, Quoted, ItemText, ValidItem;
    BlankNeutral(m.before);
    RawNeutral(m.key);
    BlankNeutral(m.colon);
    SignNeutral(":");
    ItemNeutral(m.item);
    NeutralJoin(":", ItemText(m.item));
    NeutralJoin(m.colon, ":" + ItemText(m.item));
    NeutralJoin(Quoted(m.key), m.colon + (":" + ItemText(m.item)));
    NeutralJoin(m.before, Quoted(m.key) + (m.colon + (":" + ItemText(m.item))));
  }

  lemma {:induction false} MembersNeutral(ms: seq<Member>)
    requires forall i :: 0 <= i < |ms| ==> ValidMember(ms[i])
    ensures Neutral(MembersText(ms))
    decreases ms
  {
    hide Neutral, MemberText, ValidMember;
    if ms == [] {
      InertNeutral("");
    } else {
      MemberNeutral(ms[0]);
      if |ms| > 1 {
        MembersNeutral(ms[1..]);
        SignNeutral(",");
        NeutralJoin(",", MembersText(ms[1..]));
        NeutralJoin(MemberText(ms[0]), "," + MembersText(ms[1..]));
      }
    }
  }

  // ---------------------------------------------------------------- the span of a value

  /** How a value begins and ends. */
  lemma ValueEnds(v: Json)
    requires Valid(v)
    ensures var t := JsonText(v);
      && t != "" && !Blank([t[0]]) && !Blank([t[|t| - 1]])
      && (t[0] == '[' <==> v.List?) && (t[|t| - 1] == ']' <==> v.List?)
  {
    hide ItemsText, MembersText, Raw, ValidItem, ValidMember;
    var t := JsonText(v);
    assert t[0] in [t[0]] && t[|t| - 1] in [t[|t| - 1]];
    if v.Scalar? {
      assert IsScalarChar(t[0]) && IsScalarChar(t[|t| - 1]);
    }
  }

  /** A text whose first links key has the value `v`. */
  function KeyText(pre: string, gap: string, v: Json, post: string): string {
    pre + Needle() + gap + (JsonText(v) + post)
  }

  function ValueEnd(pre: string, gap: string, v: Json): nat {
    |pre| + 11 + |gap| + |JsonText(v)|
  }

  ghost predicate FirstKey(pre: string, gap: string, v: Json) {
    (forall k: nat :: !OccursAt(pre, Needle(), k)) && Blank(gap) && Valid(v)
  }

  lemma ValueCells(pre: string, gap: string, v: Json, post: string)
    ensures var s, n := KeyText(pre, gap, v, post), |pre| + 11 + |gap|;
      && n + |JsonText(v)| <= |s| && s[..|pre|] == pre && s[..|pre| + 11] == pre + Needle()
      && s[n..n + |JsonText(v)|] == JsonText(v) && s[n + |JsonText(v)|..] == post
  {
    hide Needle, JsonText;
    NeedleShape();
    var s, t := KeyText(pre, gap, v, post), JsonText(v);
    var n := |pre| + 11 + |gap|;
    assert s[n..] == t + post;
    assert s[n..n + |t|] == (t + post)[..|t|];
    assert s[n + |t|..] == (t + post)[|t|..];
    assert s[..|pre| + 11] == pre + Needle();
  }

  /** The span found is the links key with its own value if and only if that value is
      an array; it never ends where another value ends. */
  lemma SpanIsValueIff(pre: string, gap: string, v: Json, post: string)
    requires FirstKey(pre, gap, v)
    ensures Span(KeyText(pre, gap, v, post)) == Some((|pre| + 1, ValueEnd(pre, gap, v))) <==> v.List?
  {
    hide Needle, OccursAt, Blank, Raw, Neutral, ArrayEnd, Find, Valid, JsonText;
    var s := KeyText(pre, gap, v, post);
    ValueEnds(v);
    if v.List? {
      ListSpan(pre, gap, v, post);
    } else {
      ValueCells(pre, gap, v, post);
      SpanEnd(s);
      var n, t := |pre| + 11 + |gap|, JsonText(v);
      assert s[n + |t| - 1] == s[n..n + |t|][|t| - 1];
    }
  }

  lemma SpanEnd(s: string)
    ensures Span(s).Some? ==> Span(s).value.1 > 0 && s[Span(s).value.1 - 1] == ']'
  {
    hide Find, Needle;
  }

  lemma ListSpan(pre: string, gap: string, v: Json, post: string)
    requires FirstKey(pre, gap, v) && v.List?
    ensures Span(KeyText(pre, gap, v, post)) == Some((|pre| + 1, ValueEnd(pre, gap, v)))
  {
    hide Needle, OccursAt, Neutral, Span, ItemsText, ValidItem;
    var inner := v.gap + ItemsText(v.items);
    BlankNeutral(v.gap);
    ItemsNeutral(v.items);
    NeutralJoin(v.gap, ItemsText(v.items));
    SpanBehind(pre, gap, inner, post);
    assert JsonText(v) == "[" + inner + "]";
  }

  // ---------------------------------------------------------------- what a replacement keeps

  /** The file with the value of its links key replaced and all else kept. */
  function Kept(pre: string, block: string, post: string): string {
    EndLine(pre + "\n" + block + post)
  }

  /** Ends at different places leave different files. */
  lemma EndsDiffer(p: string, s: string, a: nat, b: nat)
    requires a < b <= |s| && s[b - 1] != '\n'
    ensures EndLine(p + s[a..]) != EndLine(p + s[b..])
  {
    var x, y := p + s[a..], p + s[b..];
    assert |x| - |y| == b - a;
    assert x[|x| - 1..] == [s[|s| - 1]];
    assert b < |s| ==> y[|y| - 1..] == [s[|s| - 1]];
  }

  lemma SpanAtKey(pre: string, gap: string, v: Json, post: string)
    requires FirstKey(pre, gap, v)
    ensures var s := KeyText(pre, gap, v, post);
      && Find(s, Needle(), 0) == Some(|pre|) && (Span(s).Some? ==> Span(s).value.0 == |pre| + 1)
  {
    hide Needle, Find, OccursAt, JsonText, Valid, Blank, Span;
    var s := KeyText(pre, gap, v, post);
    assert s == pre + Needle() + (gap + (JsonText(v) + post));
    FirstNeedle(pre, gap + (JsonText(v) + post));
    SpanStart(s);
  }

  lemma ReplacedAt(pre: string, gap: string, v: Json, post: string, block: string)
    requires FirstKey(pre, gap, v) && Span(KeyText(pre, gap, v, post)).Some?
    ensures var s := KeyText(pre, gap, v, post);
      Threaded(s, block) == Some(EndLine(pre + "\n" + block + s[Span(s).value.1..]))
  {
    hide Needle, JsonText, Valid, Blank, Span, EndLine;
    var s := KeyText(pre, gap, v, post);
    SpanAtKey(pre, gap, v, post);
    NeedleShape();
    ValueCells(pre, gap, v, post);
    assert s[|pre|] == s[..|pre| + 11][|pre|] == '\n';
    assert s[..|pre| + 1] == pre + "\n";
  }

  /** A value that does not begin with a bracket, nor the blanks before it, gives one. */
  lemma NotBracketed(gap: string, t: string, rest: string)
    requires Blank(gap) && t != "" && !Blank([t[0]]) && t[0] != '['
    ensures var u := gap + (t + rest); |u| > 1 && u[0] == ' ' ==> u[1] != '['
  {
    var u := gap + (t + rest);
    if gap == "" {
      assert u[0] == t[0] && t[0] in [t[0]];
    } else {
      assert gap[0] in gap;
      assert |gap| > 1 ==> gap[1] in gap;
      assert |gap| == 1 ==> u[1] == t[0];
    }
  }

  lemma InsertedCells(norm: string, block: string, n: nat)
    requires BodyOf(norm).Some? && Span(norm) == None && 0 < n < |norm| && norm[n - 1] == ':'
    ensures Threaded(norm, block).Some?
    ensures var out := Threaded(norm, block).value;
      |out| > n + 1 && out[n] == ' ' && out[n + 1] == '[' ==> |norm| > n + 1 && norm[n] == ' ' && norm[n + 1] == '['
  {
    hide BodyOf, Span, Threaded;
    var body := BodyOf(norm).value;
    InsertedIs(norm, block);
    BodyPrefix(norm);
    if |body| <= n - 1 {
      BodyTail(norm, n - 1);
    }
    var out := body + "," + "\n" + block + "\n}\n";
    assert body + "," <= out && body + "," == (body + ",")[..|body| + 1];
    assert n <= |body| ==> out[n] == (if n < |body| then body[n] else ',');
    assert n < |body| ==> out[n + 1] == (if n + 1 < |body| then body[n + 1] else ',');
  }

  lemma KeptCells(pre: string, post: string, prev: Entry, next: Entry)
    ensures var out, n := Kept(pre, Block(prev, next), post), |pre| + 11;
      |out| > n + 1 && out[n] == ' ' && out[n + 1] == '['
  {
    hide Block, Needle;
    BlockEnds(prev, next);
    NeedleShape();
    var b := "\n" + Block(prev, next);
    assert b[11] == (Needle() + " [")[11] && b[12] == (Needle() + " [")[12];
    var x := pre + "\n" + Block(prev, next) + post;
    assert x == pre + b + post;
  }

  /** An inserted block is no replacement. */
  lemma InsertedDiffers(pre: string, gap: string, v: Json, post: string, prev: Entry, next: Entry)
    requires FirstKey(pre, gap, v) && !v.List? && Span(KeyText(pre, gap, v, post)) == None
    ensures Threaded(KeyText(pre, gap, v, post), Block(prev, next)) != Some(Kept(pre, Block(prev, next), post))
  {
    hide Needle, JsonText, Valid, Span, Threaded, BodyOf, Block, Kept, Blank;
    var s, block, n := KeyText(pre, gap, v, post), Block(prev, next), |pre| + 11;
    if Threaded(s, block).Some? {
      ThreadedParts(s, block);
      NeedleShape();
      ValueEnds(v);
      ValueCells(pre, gap, v, post);
      assert s[n - 1] == s[..n][n - 1] == ':';
      InsertedCells(s, block, n);
      KeptCells(pre, post, prev, next);
      NotBracketed(gap, JsonText(v), post);
      assert s[n..] == gap + (JsonText(v) + post);
    }
  }

  /** What is written is the file with the value of its links key replaced by the block
      and every other character kept if and only if that value is an array. */
  lemma ReplacementIff(pre: string, gap: string, v: Json, post: string, prev: Entry, next: Entry)
    requires FirstKey(pre, gap, v)
    ensures Threaded(KeyText(pre, gap, v, post), Block(prev, next)) == Some(Kept(pre, Block(prev, next), post))
      <==> v.List?
  {
    hide Needle, JsonText, Valid, Span, Threaded, BodyOf, Block, Blank, EndLine;
    var s, block := KeyText(pre, gap, v, post), Block(prev, next);
    SpanIsValueIff(pre, gap, v, post);
    ValueCells(pre, gap, v, post);
    if Span(s) == None {
      InsertedDiffers(pre, gap, v, post, prev, next);
    } else {
      SpanAtKey(pre, gap, v, post);
      ReplacedAt(pre, gap, v, post, block);
      var end, own := Span(s).value.1, ValueEnd(pre, gap, v);
      if end != own {
        SpanEnd(s);
        ValueLast(pre, gap, v, post);
        EndsDiffer(pre + "\n" + block, s, if end < own then end else own, if end < own then own else end);
      }
    }
  }

  lemma ValueLast(pre: string, gap: string, v: Json, post: string)
    requires Valid(v)
    ensures var s, end := KeyText(pre, gap, v, post), ValueEnd(pre, gap, v);
      0 < end <= |s| && s[end - 1] != '\n' && s[end..] == post
  {
    hide Needle, JsonText, Valid;
    var s, n, t := KeyText(pre, gap, v, post), |pre| + 11 + |gap|, JsonText(v);
    ValueCells(pre, gap, v, post);
    ValueEnds(v);
    assert s[n + |t| - 1] == s[n..n + |t|][|t| - 1];
  }

  // ---------------------------------------------------------------- a file that loses a key

  /** When the value holds no bracket, the next array is taken for it: everything from the
      links key to the end of that array is replaced. */
  lemma NextArrayTaken(
    pre: string, gap: string, v: Json, mid: string, w: Json, post: string, prev: Entry, next: Entry)
    requires FirstKey(pre, gap, v) && '[' !in JsonText(v) && '[' !in mid && Valid(w) && w.List?
    ensures Threaded(KeyText(pre, gap, v, mid + (JsonText(w) + post)), Block(prev, next)) ==
      Some(Kept(pre, Block(prev, next), post))
  {
    hide Needle, OccursAt, Neutral, Span, ItemsText, ValidItem, Block, EndLine, Threaded;
    var inner := w.gap + ItemsText(w.items);
    BlankNeutral(w.gap);
    ItemsNeutral(w.items);
    NeutralJoin(w.gap, ItemsText(w.items));
    var all := gap + (JsonText(v) + mid);
    SpanBehind(pre, all, inner, post);
    assert JsonText(w) == "[" + inner + "]";
    var s := KeyText(pre, gap, v, mid + (JsonText(w) + post));
    assert s == pre + Needle() + all + ("[" + inner + "]" + post);
    var upto := pre + Needle() + all + ("[" + inner + "]");
    NeedleShape();
    assert s == upto + post && |upto| == Span(s).value.1;
    assert s[|upto|..] == post;
    ReplacedAt(pre, gap, v, mid + (JsonText(w) + post), Block(prev, next));
  }

  function Null(): Json {
    Scalar("null")
  }

  function Panels(): Json {
    List("", [Item("\n    ", Scalar("1"), "\n  ")])
  }

  function PanelsKey(): string {
    ",\n  \"panels\": "
  }

  function Version(): string {
    ",\n  \"version\": 3\n}\n"
  }

  /** A dashboard whose links are null: the panels behind them are deleted. */
  lemma PanelsLost(prev: Entry, next: Entry)
    ensures Threaded(KeyText(Head(), " ", Null(), PanelsKey() + (JsonText(Panels()) + Version())), Block(prev, next)) ==
      Some(Kept(Head(), Block(prev, next), Version()))
  {
    hide Threaded, Block, Version, Kept, KeyText;
    HeadHasNone();
    NullAndPanels();
    NextArrayTaken(Head(), " ", Null(), PanelsKey(), Panels(), Version(), prev, next);
  }

  lemma HeadHasNone()
    ensures forall k: nat :: !OccursAt(Head(), Needle(), k)
  {
    forall k: nat
      ensures !OccursAt(Head(), Needle(), k)
    {
      OccursChars(Head(), Needle(), k);
      assert Needle()[7] == 'k' && 'k' !in Head();
    }
  }

  lemma NullAndPanels()
    ensures Blank(" ") && Valid(Null()) && Valid(Panels()) && '[' !in JsonText(Null()) && '[' !in PanelsKey()
  {
    assert Valid(Scalar("1"));
  }
}
