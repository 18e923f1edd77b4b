/**
 The threading of navigation links through the infra dashboards by
 scripts/fix_grafana_infra_links.py: the bracket- and string-aware search for the
 links array, the rendering of the new one, and the replace-or-insert step.
*/
module LinksSpan {
  import opened Wrappers
  import opened PyStrings

  // ---------------------------------------------------------------- the search

  function Needle(): string {
    "\n  \"links\":"
  }

  /** Where the scan stands: arrays open, inside a string, behind a backslash. */
  datatype Scan = Scan(depth: int, inString: bool, escape: bool)

  const START := Scan(0, false, false)

  function Step(q: Scan, c: char): Scan {
    if q.inString then
      if q.escape then q.(escape := false)
      else if c == '\\' then q.(escape := true)
      else if c == '"' then q.(inString := false)
      else q
    else if c == '"' then q.(inString := true)
    else if c == '[' then q.(depth := q.depth + 1)
    else if c == ']' then q.(depth := q.depth - 1)
    else q
  }

  /** The bracket that closes the array. */
  predicate Closes(q: Scan, c: char) {
    !q.inString && c == ']' && q.depth == 1
  }

  /** The index behind the closing bracket of the array the scan is in. */
  function ArrayEnd(s: string, i: nat, q: Scan): (r: Option<nat>)
    requires i <= |s|
    ensures r.Some? ==> i < r.value <= |s| && s[r.value - 1] == ']'
    decreases |s| - i
  {
    if i == |s| then None else if Closes(q, s[i]) then Some(i + 1) else ArrayEnd(s, i + 1, Step(q, s[i]))
  }

  /** The span of the links key and its array. */
  function Span(text: string): (r: Option<(nat, nat)>)
    ensures r.Some? ==> r.value.0 <= r.value.1 <= |text|
  {
    match Find(text, Needle(), 0)
    case None => None
    case Some(idx) =>
      var key := idx + 1;
      match Find(text, ":", key)
      case None => None
      case Some(colon) =>
        match Find(text, "[", colon)
        case None => None
        case Some(bracket) =>
          match ArrayEnd(text, bracket, START)
          case None => None
          case Some(end) => Some((key, end))
  }

  /** `find_links_span` */
  method FindLinksSpan(text: string) returns (r: Option<(nat, nat)>)
    ensures r == Span(text)
  {
    hide Find;
    var idx := Find(text, Needle(), 0);
    if idx == None {
      return None;
    }
    var keyStart := idx.value + 1;
    var colon := Find(text, ":", keyStart);
    if colon == None {
      return None;
    }
    var bracket := Find(text, "[", colon.value);
    if bracket == None {
      return None;
    }
    var depth, inString, escape, i := 0, false, false, bracket.value;
    while i < |text|
      invariant bracket.value <= i <= |text|
      invariant ArrayEnd(text, i, Scan(depth, inString, escape)) == ArrayEnd(text, bracket.value, START)
    {
      var c := text[i];
      if inString {
        if escape {
          escape := false;
        } else if c == '\\' {
          escape := true;
        } else if c == '"' {
          inString := false;
        }
      } else {
        if c == '"' {
          inString := true;
        } else if c == '[' {
          depth := depth + 1;
        } else if c == ']' {
          depth := depth - 1;
          if depth == 0 {
            return Some((keyStart, i + 1));
          }
        }
      }
      i := i + 1;
    }
    return None;
  }

  // ---------------------------------------------------------------- the block

  function Hex(d: nat): char
    requires d < 16
  {
    if d < 10 then '0' + d as char else 'a' + (d - 10) as char
  }

  /** One character as `json.dumps(..., ensure_ascii=False)` writes it. */
  function DumpChar(c: char): string {
    if c == '"' then "\\\""
    else if c == '\\' then "\\\\"
    else if c == '\n' then "\\n"
    else if c == '\r' then "\\r"
    else if c == '\t' then "\\t"
    else if c as int == 8 then "\\b"
    else if c as int == 12 then "\\f"
    else if c as int < 16 then "\\u000" + [Hex(c as int)]
    else if c as int < 32 then "\\u001" + [Hex(c as int - 16)]
    else [c]
  }

  function Dump(title: string): string {
    if title == "" then "" else DumpChar(title[0]) + Dump(title[1..])
  }

  datatype Value = Word(text: string) | Str(text: string) | Title(title: string) | NoTags | OneTag(tag: string)

  datatype Field = Field(key: string, value: Value)

  function ValueText(v: Value): string {
    match v
    case Word(t) => t
    case Str(t) => "\"" + t + "\""
    case Title(t) => "\"" + Dump(t) + "\""
    case NoTags => "[]"
    case OneTag(t) => "[\n        \"" + t + "\"\n      ]"
  }

  function FieldText(f: Field): string {
    "      \"" + f.key + "\": " + ValueText(f.value)
  }

  function FieldsText(fs: seq<Field>): string {
    if fs == [] then "" else if |fs| == 1 then FieldText(fs[0]) else FieldText(fs[0]) + ",\n" + FieldsText(fs[1..])
  }

  function ObjectText(fs: seq<Field>): string {
    "    {\n" + FieldsText(fs) + "\n    }"
  }

  function NeighbourLink(caption: string, title: string, uid: string): seq<Field> {
    [Field("asDropdown", Word("false")), Field("icon", Str("bolt")), Field("includeVars", Word("true")),
     Field("keepTime", Word("true")), Field("tags", NoTags), Field("targetBlank", Word("false")),
     Field("title", Str(caption)), Field("tooltip", Title(title)), Field("type", Str("link")),
     Field("url", Str("/d/" + uid))]
  }

  function HomeLink(): seq<Field> {
    [Field("asDropdown", Word("true")), Field("icon", Str("external link")), Field("includeVars", Word("true")),
     Field("keepTime", Word("true")), Field("tags", OneTag("teslasync")), Field("targetBlank", Word("false")),
     Field("title", Str("\U{26a1} TeslaSync")), Field("type", Str("dashboards"))]
  }

  datatype Entry = Entry(uid: string, title: string)

  function InnerText(prev: Entry, next: Entry): string {
    "\n" + ObjectText(NeighbourLink("\U{25c0} Prev", prev.title, prev.uid)) + ",\n" + ObjectText(HomeLink()) + ",\n"
    + ObjectText(NeighbourLink("Next \U{25b6}", next.title, next.uid)) + "\n  "
  }

  /** `render_links_block` */
  function Block(prev: Entry, next: Entry): string {
    "  \"links\": [" + InnerText(prev, next) + "]"
  }

  /** What a uid may hold to be written between quotes as it is. */
  predicate PlainUid(uid: string) {
    forall c :: c in uid ==> c != '"' && c != '\\' && c as int >= 32
  }

  // ---------------------------------------------------------------- scanning the block

  /** The scan after `t`, unless the array closes in it. */
  function Run(t: string, q: Scan): Option<Scan> {
    if t == "" then Some(q) else if Closes(q, t[0]) then None else Run(t[1..], Step(q, t[0]))
  }

  lemma {:induction false} RunJoin(a: string, b: string, q: Scan)
    requires Run(a, q).Some?
    ensures Run(a + b, q) == Run(b, Run(a, q).value)
    decreases a
  {
    if a == "" {
      assert a + b == b;
    } else {
      assert (a + b)[1..] == a[1..] + b;
      RunJoin(a[1..], b, Step(q, a[0]));
    }
  }

  lemma {:induction false} EndBehind(s: string, i: nat, t: string, q: Scan)
    requires i + |t| <= |s| && s[i..i + |t|] == t && Run(t, q).Some?
    ensures ArrayEnd(s, i, q) == ArrayEnd(s, i + |t|, Run(t, q).value)
    decreases t
  {
    if t != "" {
      assert s[i] == s[i..i + |t|][0] == t[0];
      assert s[i + 1..i + |t|] == s[i..i + |t|][1..] == t[1..];
      EndBehind(s, i + 1, t[1..], Step(q, t[0]));
    }
  }

  /** Inside an array, a text the scan comes out of as it went in. */
  ghost predicate Neutral(t: string) {
    forall d: int :: d >= 1 ==> Run(t, Scan(d, false, false)) == Some(Scan(d, false, false))
  }

  lemma NeutralJoin(a: string, b: string)
    requires Neutral(a) && Neutral(b)
    ensures Neutral(a + b)
  {
    forall d: int | d >= 1 ensures Run(a + b, Scan(d, false, false)) == Some(Scan(d, false, false)) {
      RunJoin(a, b, Scan(d, false, false));
    }
  }

  predicate Inert(t: string) {
    '"' !in t && '[' !in t && ']' !in t
  }

  lemma {:induction false} RunInert(t: string, d: int)
    requires Inert(t)
    ensures Run(t, Scan(d, false, false)) == Some(Scan(d, false, false))
    decreases t
  {
    if t != "" {
      assert t[0] in t;
      assert forall c :: c in t[1..] ==> c in t;
      RunInert(t[1..], d);
    }
  }

  lemma InertNeutral(t: string)
    requires Inert(t)
    ensures Neutral(t)
  {
    forall d: int | d >= 1 ensures Run(t, Scan(d, false, false)) == Some(Scan(d, false, false)) {
      RunInert(t, d);
    }
  }

  predicate Bare(t: string) {
    '"' !in t && '\\' !in t
  }

  lemma {:induction false} RunBare(t: string, d: int)
    requires Bare(t)
    ensures Run(t, Scan(d, true, false)) == Some(Scan(d, true, false))
    decreases t
  {
    if t != "" {
      assert t[0] in t;
      assert forall c :: c in t[1..] ==> c in t;
      RunBare(t[1..], d);
    }
  }

  /** Whatever a title holds, its dump stays inside its string. */
  lemma {:induction false} RunDump(title: string, d: int)
    ensures Run(Dump(title), Scan(d, true, false)) == Some(Scan(d, true, false))
    decreases title
  {
    if title != "" {
      DumpOne(title[0], d);
      RunJoin(DumpChar(title[0]), Dump(title[1..]), Scan(d, true, false));
      RunDump(title[1..], d);
    }
  }

  lemma DumpOne(c: char, d: int)
    ensures Run(DumpChar(c), Scan(d, true, false)) == Some(Scan(d, true, false))
  {
    var t := DumpChar(c);
    if t == [c] {
      RunBare(t, d);
    } else {
      assert t[0] == '\\';
      var q := Scan(d, true, true);
      assert t[1..][0] == t[1];
      assert Step(Step(Scan(d, true, false), t[0]), t[1]) == Scan(d, true, false);
      assert t[1..][1..] == t[2..];
      DumpRest(c);
      RunBare(t[2..], d);
    }
  }

  lemma DumpRest(c: char)
    requires |DumpChar(c)| > 1
    ensures Bare(DumpChar(c)[2..])
  {
    var t := DumpChar(c);
    assert |t| == 2 || (|t| == 6 && t[2] == '0' && t[3] == '0');
    if |t| == 6 {
      assert t[2..] == [t[2], t[3], t[4], t[5]];
    }
  }

  lemma QuotedNeutral(t: string)
    requires forall d: int :: Run(t, Scan(d, true, false)) == Some(Scan(d, true, false))
    ensures Neutral("\"" + t + "\"")
  {
    forall d: int | d >= 1 ensures Run("\"" + t + "\"", Scan(d, false, false)) == Some(Scan(d, false, false)) {
      var all := "\"" + t + "\"";
      assert all[1..] == t + "\"";
      RunJoin(t, "\"", Scan(d, true, false));
      assert "\""[1..] == "";
    }
  }

  lemma ArrayOnce(t: string, d: int)
    requires d >= 1 && Run(t, Scan(d + 1, false, false)) == Some(Scan(d + 1, false, false))
    ensures Run("[" + t + "]", Scan(d, false, false)) == Some(Scan(d, false, false))
  {
    var all := "[" + t + "]";
    assert all[1..] == t + "]";
    RunJoin(t, "]", Scan(d + 1, false, false));
    assert "]"[1..] == "";
  }

  lemma ArrayNeutral(t: string)
    requires Neutral(t)
    ensures Neutral("[" + t + "]")
  {
    hide Run;
    forall d: int | d >= 1 ensures Run("[" + t + "]", Scan(d, false, false)) == Some(Scan(d, false, false)) {
      assert Run(t, Scan(d + 1, false, false)) == Some(Scan(d + 1, false, false));
      ArrayOnce(t, d);
    }
  }

  predicate SafeValue(v: Value) {
    match v
    case Word(t) => Inert(t)
    case Str(t) => Bare(t)
    case Title(_) => true
    case NoTags => true
    case OneTag(t) => Bare(t)
  }

  predicate Safe(f: Field) {
    Bare(f.key) && SafeValue(f.value)
  }

  lemma StringNeutral(t: string)
    requires Bare(t)
    ensures Neutral("\"" + t + "\"")
  {
    forall d: int ensures Run(t, Scan(d, true, false)) == Some(Scan(d, true, false)) {
      RunBare(t, d);
    }
    QuotedNeutral(t);
  }

  lemma ValueNeutral(v: Value)
    requires SafeValue(v)
    ensures Neutral(ValueText(v))
  {
    hide Neutral;
    match v
    case Word(t) => InertNeutral(t);
    case Str(t) => StringNeutral(t);
    case Title(t) =>
      forall d: int ensures Run(Dump(t), Scan(d, true, false)) == Some(Scan(d, true, false)) {
        RunDump(t, d);
      }
      QuotedNeutral(Dump(t));
    case NoTags =>
      InertNeutral("");
      ArrayNeutral("");
      assert "[" + "" + "]" == "[]";
    case OneTag(t) =>
      TagNeutral(t);
  }

  lemma TagNeutral(t: string)
    requires Bare(t)
    ensures Neutral("[\n        \"" + t + "\"\n      ]")
  {
    hide Neutral;
    var q := "\"" + t + "\"";
    StringNeutral(t);
    InertNeutral("\n        ");
    InertNeutral("\n      ");
    NeutralJoin("\n        ", q);
    NeutralJoin("\n        " + q, "\n      ");
    ArrayNeutral("\n        " + q + "\n      ");
    assert "[" + ("\n        " + q + "\n      ") + "]" == "[\n        \"" + t + "\"\n      ]";
  }

  lemma FieldNeutral(f: Field)
    requires Safe(f)
    ensures Neutral(FieldText(f))
  {
    hide Neutral, ValueText, Bare, SafeValue;
    var key, val := "\"" + f.key + "\"", ValueText(f.value);
    StringNeutral(f.key);
    ValueNeutral(f.value);
    InertNeutral("      ");
    InertNeutral(": ");
    NeutralJoin("      ", key);
    NeutralJoin("      " + key, ": ");
    NeutralJoin("      " + key + ": ", val);
    assert FieldText(f) == "      " + key + ": " + val;
  }

  lemma {:induction false} FieldsNeutral(fs: seq<Field>)
    requires forall f :: f in fs ==> Safe(f)
    ensures Neutral(FieldsText(fs))
    decreases fs
  {
    hide Neutral, FieldText, Safe;
    if fs == [] {
      InertNeutral("");
    } else {
      FieldNeutral(fs[0]);
      if |fs| > 1 {
        FieldsNeutral(fs[1..]);
        InertNeutral(",\n");
        NeutralJoin(FieldText(fs[0]), ",\n");
        NeutralJoin(FieldText(fs[0]) + ",\n", FieldsText(fs[1..]));
      }
    }
  }

  lemma ObjectNeutral(fs: seq<Field>)
    requires forall f :: f in fs ==> Safe(f)
    ensures Neutral(ObjectText(fs))
  {
    hide Neutral, FieldsText, Safe;
    FieldsNeutral(fs);
    InertNeutral("    {\n");
    InertNeutral("\n    }");
    NeutralJoin("    {\n", FieldsText(fs));
    NeutralJoin("    {\n" + FieldsText(fs), "\n    }");
  }

  lemma KeysBare()
    ensures Bare("asDropdown") && Bare("icon") && Bare("includeVars") && Bare("keepTime")
  {
  }

  lemma MoreKeysBare()
    ensures Bare("tags") && Bare("targetBlank") && Bare("title") && Bare("tooltip") && Bare("type") && Bare("url")
  {
  }

  lemma ValuesSafe()
    ensures Inert("true") && Inert("false") && Bare("bolt") && Bare("link")
    ensures Bare("external link") && Bare("teslasync") && Bare("dashboards")
  {
  }

  lemma CaptionsBare()
    ensures Bare("\U{25c0} Prev") && Bare("\U{26a1} TeslaSync") && Bare("Next \U{25b6}")
  {
  }

  lemma UrlBare(uid: string)
    requires PlainUid(uid)
    ensures Bare("/d/" + uid)
  {
  }

  lemma NeighbourSafe(caption: string, title: string, uid: string)
    requires PlainUid(uid) && Bare(caption)
    ensures forall f :: f in NeighbourLink(caption, title, uid) ==> Safe(f)
  {
    hide Bare, Inert;
    KeysBare();
    MoreKeysBare();
    ValuesSafe();
    UrlBare(uid);
  }

  lemma HomeSafe()
    ensures forall f :: f in HomeLink() ==> Safe(f)
  {
    hide Bare, Inert;
    KeysBare();
    MoreKeysBare();
    ValuesSafe();
    CaptionsBare();
  }

  lemma InnerNeutral(prev: Entry, next: Entry)
    requires PlainUid(prev.uid) && PlainUid(next.uid)
    ensures Neutral(InnerText(prev, next))
  {
    hide Neutral, ObjectText, NeighbourLink, HomeLink, Safe, PlainUid;
    var before, after := "\U{25c0} Prev", "Next \U{25b6}";
    CaptionsBare();
    NeighbourSafe(before, prev.title, prev.uid);
    HomeSafe();
    NeighbourSafe(after, next.title, next.uid);
    var a := ObjectText(NeighbourLink(before, prev.title, prev.uid));
    var b := ObjectText(HomeLink());
    var c := ObjectText(NeighbourLink(after, next.title, next.uid));
    ObjectNeutral(NeighbourLink(before, prev.title, prev.uid));
    ObjectNeutral(HomeLink());
    ObjectNeutral(NeighbourLink(after, next.title, next.uid));
    InertNeutral("\n");
    InertNeutral(",\n");
    InertNeutral("\n  ");
    NeutralJoin("\n", a);
    NeutralJoin("\n" + a, ",\n");
    NeutralJoin("\n" + a + ",\n", b);
    NeutralJoin("\n" + a + ",\n" + b, ",\n");
    NeutralJoin("\n" + a + ",\n" + b + ",\n", c);
    NeutralJoin("\n" + a + ",\n" + b + ",\n" + c, "\n  ");
  }

  // ---------------------------------------------------------------- the block is found

  lemma NeedleShape()
    ensures |Needle()| == 11 && Needle()[0] == '\n' && Needle()[10] == ':'
    ensures forall k :: 1 <= k < 11 ==> Needle()[k] != '\n'
    ensures forall k :: 0 <= k < 10 ==> Needle()[k] != ':'
  {
  }

  lemma OccursChars(s: string, t: string, i: nat)
    ensures OccursAt(s, t, i) <==> i + |t| <= |s| && forall j :: 0 <= j < |t| ==> s[i + j] == t[j]
  {
    if i + |t| <= |s| {
      var w := s[i..i + |t|];
      assert forall j :: 0 <= j < |w| ==> w[j] == s[i + j];
    }
  }

  /** No needle reaches across the newline another one begins with. */
  lemma OccursBefore(pre: string, s: string, k: nat)
    requires pre + "\n" <= s && k < |pre| && OccursAt(s, Needle(), k)
    ensures OccursAt(pre, Needle(), k)
  {
    hide Needle, OccursAt;
    NeedleShape();
    OccursChars(s, Needle(), k);
    OccursChars(pre, Needle(), k);
    assert forall j :: 0 <= j < |pre| ==> s[j] == (pre + "\n")[j] == pre[j];
    assert s[|pre|] == (pre + "\n")[|pre|] == '\n';
    var j := if |pre| - k < 11 then |pre| - k else 10;
    assert s[k + j] == Needle()[j];
  }

  /** A needle behind text that holds none is the first. */
  lemma FirstNeedle(pre: string, tail: string)
    requires forall k: nat :: !OccursAt(pre, Needle(), k)
    ensures Find(pre + Needle() + tail, Needle(), 0) == Some(|pre|)
  {
    hide Needle, Find;
    NeedleShape();
    var s := pre + Needle() + tail;
    assert OccursAt(s, Needle(), |pre|);
    assert pre + "\n" <= s;
    forall k: nat | k < |pre| ensures !OccursAt(s, Needle(), k) {
      if OccursAt(s, Needle(), k) {
        OccursBefore(pre, s, k);
      }
    }
  }

  lemma FindChar(s: string, c: char, from: nat, k: nat)
    requires from <= k < |s| && s[k] == c && forall j :: from <= j < k ==> s[j] != c
    ensures Find(s, [c], from) == Some(k)
  {
    assert OccursAt(s, [c], k);
    forall j | from <= j < k ensures !OccursAt(s, [c], j) {
      assert s[j..j + 1] == [s[j]];
    }
  }

  function Opening(): string {
    "  \"links\": ["
  }

  lemma OpeningShape()
    ensures |Opening()| == 12 && "\n" + Opening() == Needle() + " ["
    ensures Opening()[9] == ':' && Opening()[10] == ' ' && Opening()[11] == '['
    ensures forall k :: 0 <= k < 9 ==> Opening()[k] != ':'
  {
  }

  /** The span runs from the first links key to the end of the first array behind it,
      whatever lies between the two. */
  lemma SpanBehind(pre: string, mid: string, inner: string, post: string)
    requires (forall k: nat :: !OccursAt(pre, Needle(), k)) && '[' !in mid && Neutral(inner)
    ensures var s := pre + Needle() + mid + ("[" + inner + "]" + post);
      Span(s) == Some((|pre| + 1, |pre| + 11 + |mid| + |inner| + 2))
  {
    hide Needle, Find, ArrayEnd, OccursAt, Neutral;
    var s := pre + Needle() + mid + ("[" + inner + "]" + post);
    NeedleShape();
    assert s == pre + Needle() + (mid + ("[" + inner + "]" + post));
    FirstNeedle(pre, mid + ("[" + inner + "]" + post));
    var key := |pre| + 1;
    var bracket := key + 10 + |mid|;
    forall k | key <= k < key + 9
      ensures s[k] != ':'
    {
      assert s[k] == Needle()[k - |pre|];
    }
    FindChar(s, ':', key, key + 9);
    assert s[bracket..] == "[" + inner + "]" + post;
    assert forall k :: 0 <= k < |mid| ==> s[key + 10 + k] == mid[k];
    assert s[bracket] == '[';
    FindChar(s, '[', key + 9, bracket);
    InnerScanned(s, bracket, inner, post);
  }

  /** A block behind text without needle is found exactly, whatever follows it and
      whatever its titles hold. */
  lemma BlockFound(pre: string, prev: Entry, next: Entry, post: string)
    requires PlainUid(prev.uid) && PlainUid(next.uid) && forall k: nat :: !OccursAt(pre, Needle(), k)
    ensures var key := |pre| + 1;
      Span(pre + "\n" + Block(prev, next) + post) == Some((key, key + |Block(prev, next)|))
  {
    hide Needle, Opening, Find, InnerText, ArrayEnd, OccursAt, PlainUid, Span, Neutral;
    var inner := InnerText(prev, next);
    OpeningShape();
    NeedleShape();
    BlockIs(prev, next);
    InnerNeutral(prev, next);
    SpanBehind(pre, " ", inner, post);
    var rest := inner + "]" + post;
    assert pre + "\n" + Block(prev, next) + post == pre + (("\n" + Opening()) + rest);
    assert pre + Needle() + " " + ("[" + inner + "]" + post) == pre + ((Needle() + " [") + rest);
  }

  lemma BlockIs(prev: Entry, next: Entry)
    ensures Block(prev, next) == Opening() + InnerText(prev, next) + "]"
  {
  }

  lemma NeutralOnce(t: string)
    requires Neutral(t)
    ensures Run(t, Scan(1, false, false)) == Some(Scan(1, false, false))
  {
  }

  lemma Part(s: string, i: nat, a: nat, b: nat)
    requires a <= b && i + b <= |s|
    ensures s[i..][a..b] == s[i + a..i + b]
  {
  }

  lemma ArrayCells(s: string, i: nat, inner: string, post: string)
    requires i <= |s| && s[i..] == "[" + inner + "]" + post
    ensures var e := i + 1 + |inner|;
      e < |s| && s[i] == '[' && s[i + 1..e] == inner && s[e] == ']'
  {
    var t := s[i..];
    assert |s| == i + |inner| + 2 + |post|;
    assert s[i] == t[0] && s[i + 1 + |inner|] == t[1 + |inner|];
    Part(s, i, 1, 1 + |inner|);
    assert t[1..1 + |inner|] == inner;
  }

  lemma InnerScanned(s: string, i: nat, inner: string, post: string)
    requires i <= |s| && s[i..] == "[" + inner + "]" + post && Neutral(inner)
    ensures ArrayEnd(s, i, START) == Some(i + |inner| + 2)
  {
    hide Neutral, Run;
    ArrayCells(s, i, inner, post);
    NeutralOnce(inner);
    EndBehind(s, i + 1, inner, Scan(1, false, false));
  }

  // ---------------------------------------------------------------- one file

  /** Reading a text file: `\r\n` and a lone `\r` become `\n`. */
  function UniversalNewlines(raw: string): string {
    if raw == "" then ""
    else if raw[0] == '\r' then
      "\n" + (if |raw| > 1 && raw[1] == '\n' then UniversalNewlines(raw[2..]) else UniversalNewlines(raw[1..]))
    else [raw[0]] + UniversalNewlines(raw[1..])
  }

  /** A text is cut at its first carriage return: alone or with a newline behind it, it
      becomes one newline. */
  lemma {:induction false} UniversalIs(a: string, b: string)
    requires Lf(a)
    ensures UniversalNewlines(a) == a
    ensures UniversalNewlines(a + "\r\n" + b) == a + "\n" + UniversalNewlines(b)
    ensures b == "" || b[0] != '\n' ==> UniversalNewlines(a + "\r" + b) == a + "\n" + UniversalNewlines(b)
    decreases a
  {
    var s, t := a + "\r\n" + b, a + "\r" + b;
    if a == "" {
      assert s[0] == '\r' && s[1] == '\n' && s[2..] == b;
      assert t[0] == '\r' && t[1..] == b && (b != "" ==> t[1] == b[0]);
    } else {
      assert a[0] in a;
      assert Lf(a[1..]);
      UniversalIs(a[1..], b);
      assert a == [a[0]] + a[1..];
      assert s[0] == a[0] && s[1..] == a[1..] + "\r\n" + b;
      assert t[0] == a[0] && t[1..] == a[1..] + "\r" + b;
    }
  }

  /** `text.replace("\r\n", "\n")` */
  function CrLfToLf(s: string): string {
    if s == "" then ""
    else if |s| > 1 && s[0] == '\r' && s[1] == '\n' then "\n" + CrLfToLf(s[2..])
    else [s[0]] + CrLfToLf(s[1..])
  }

  /** `text.replace("\n", eol)` */
  function WithEol(s: string, eol: string): string {
    if s == "" then "" else (if s[0] == '\n' then eol else [s[0]]) + WithEol(s[1..], eol)
  }

  predicate EndsValue(body: string) {
    body != "" &&
    (body[|body| - 1] in "}]\"" || '0' <= body[|body| - 1] <= '9'
     || EndsWith(body, "false") || EndsWith(body, "true") || EndsWith(body, "null"))
  }

  /** The text the block is appended to, when there is no array to replace. */
  function BodyOf(norm: string): Option<string> {
    var stripped := RStripNewlines(norm);
    if !EndsWith(RStrip(norm), "}") || !EndsWith(stripped, "}") then None
    else
      var body := RStrip(stripped[..|stripped| - 1]);
      if EndsValue(body) then Some(body) else None
  }

  function EndLine(s: string): string {
    if EndsWith(s, "\n") then s else s + "\n"
  }

  /** What is written for a text without carriage returns; nothing if the file is refused. */
  function Threaded(norm: string, block: string): Option<string> {
    match Span(norm)
    case Some((start, end)) => Some(EndLine(norm[..start] + block + norm[end..]))
    case None =>
      match BodyOf(norm)
      case None => None
      case Some(body) => Some(EndLine(body + ",\n" + block + "\n}"))
  }

  function ThreadedFile(raw: string, prev: Entry, next: Entry): Option<string> {
    Threaded(UniversalNewlines(raw), Block(prev, next))
  }

  predicate Lf(s: string) {
    '\r' !in s
  }

  lemma {:induction false} UniversalLf(raw: string)
    ensures Lf(UniversalNewlines(raw))
    ensures Lf(raw) ==> UniversalNewlines(raw) == raw
    decreases |raw|
  {
    if raw != "" {
      if raw[0] == '\r' {
        assert raw[0] in raw;
        if |raw| > 1 && raw[1] == '\n' {
          UniversalLf(raw[2..]);
        } else {
          UniversalLf(raw[1..]);
        }
      } else {
        UniversalLf(raw[1..]);
        assert raw == [raw[0]] + raw[1..];
      }
    }
  }

  lemma {:induction false} CrLfSame(s: string)
    requires Lf(s)
    ensures CrLfToLf(s) == s
    decreases s
  {
    if s != "" {
      assert s[0] in s;
      CrLfSame(s[1..]);
      assert s == [s[0]] + s[1..];
    }
  }

  lemma {:induction false} LfEol(s: string)
    ensures WithEol(s, "\n") == s
    decreases s
  {
    if s != "" {
      LfEol(s[1..]);
      assert s == [s[0]] + s[1..];
    }
  }

  /** The replace-or-insert step. */
  method NewText(norm: string, block: string) returns (r: Option<string>)
    ensures r.Some? <==> Threaded(norm, block).Some?
    ensures r.Some? ==> EndLine(r.value) == Threaded(norm, block).value
  {
    hide Span, RStrip, RStripNewlines, EndsValue;
    var span := FindLinksSpan(norm);
    if span.Some? {
      var (start, end) := span.value;
      return Some(norm[..start] + block + norm[end..]);
    }
    if !EndsWith(RStrip(norm), "}") {
      return None;
    }
    var stripped := RStripNewlines(norm);
    if !EndsWith(stripped, "}") {
      return None;
    }
    var body := RStrip(stripped[..|stripped| - 1]);
    if !EndsValue(body) {
      return None;
    }
    return Some(body + ",\n" + block + "\n}");
  }

  lemma ThreadedLf(norm: string, block: string)
    requires Lf(norm) && Lf(block) && Threaded(norm, block).Some?
    ensures Lf(Threaded(norm, block).value)
  {
    hide Span;
    if Span(norm) == None {
      assert forall c :: c in BodyOf(norm).value ==> c in norm;
    }
  }

  /** The loop's turn for one dashboard, from the text read to the text written. No
      carriage return survives: the line ending it means to detect is already gone. */
  method ThreadFile(raw: string, prev: Entry, next: Entry) returns (r: Option<string>)
    ensures r == ThreadedFile(raw, prev, next)
    ensures r.Some? && PlainUid(prev.uid) && PlainUid(next.uid) ==> Lf(r.value)
  {
    hide Threaded, Block, UniversalNewlines, CrLfToLf, WithEol, Find, OccursAt, PlainUid;
    var text := UniversalNewlines(raw);
    UniversalLf(raw);
    NoCrLf(text);
    var eol := if Find(text, "\r\n", 0).Some? then "\r\n" else "\n";
    var norm := CrLfToLf(text);
    CrLfSame(text);
    var newNorm := NewText(norm, Block(prev, next));
    if newNorm == None {
      return None;
    }
    if PlainUid(prev.uid) && PlainUid(next.uid) {
      BlockSteady(prev, next);
      ThreadedLf(norm, Block(prev, next));
    }
    LfEol(newNorm.value);
    var out := WithEol(newNorm.value, eol);
    if !EndsWith(out, eol) {
      out := out + eol;
    }
    return Some(out);
  }

  lemma OccursMember(s: string, t: string, k: nat)
    requires OccursAt(s, t, k) && t != ""
    ensures t[0] in s
  {
    assert s[k] == s[k..k + |t|][0];
  }

  lemma NoCrLf(s: string)
    requires Lf(s)
    ensures Find(s, "\r\n", 0) == None
  {
    hide Find;
    var r := Find(s, "\r\n", 0);
    if r.Some? {
      OccursMember(s, "\r\n", r.value);
    }
  }

  // ---------------------------------------------------------------- the lines of the block

  /** No control characters. */
  predicate Printable(t: string) {
    forall c :: c in t ==> c as int >= 32
  }

  /** No carriage return, and three characters behind every newline there is one that
      is no quote: the text is indented deeper than a top-level key. */
  predicate Steady(t: string) {
    Lf(t) && forall j :: 0 <= j < |t| && t[j] == '\n' ==> j + 3 < |t| && t[j + 3] != '"'
  }

  lemma SteadyJoin(a: string, b: string)
    requires Steady(a) && Steady(b)
    ensures Steady(a + b)
  {
    var t := a + b;
    forall j | 0 <= j < |t| && t[j] == '\n' ensures j + 3 < |t| && t[j + 3] != '"' {
      if j < |a| {
        assert a[j] == '\n' && t[j + 3] == a[j + 3];
      } else {
        assert b[j - |a|] == '\n' && t[j + 3] == b[j - |a| + 3];
      }
    }
  }

  /** A line may follow that begins with two characters and no quote. */
  lemma SteadyLine(a: string, b: string)
    requires Steady(a) && Steady(b) && |b| > 2 && b[2] != '"'
    ensures Steady(a + "\n" + b)
  {
    var t := "\n" + b;
    forall j | 0 <= j < |t| && t[j] == '\n' ensures j + 3 < |t| && t[j + 3] != '"' {
      if j > 0 {
        assert b[j - 1] == '\n' && t[j + 3] == b[j + 2];
      }
    }
    SteadyJoin(a, t);
    assert a + "\n" + b == a + t;
  }

  lemma PrintableSteady(t: string)
    requires Printable(t)
    ensures Steady(t)
  {
    assert forall j :: 0 <= j < |t| ==> t[j] in t;
  }

  lemma {:induction false} DumpPrintable(title: string)
    ensures Printable(Dump(title))
    decreases title
  {
    if title != "" {
      DumpPrintable(title[1..]);
    }
  }

  predicate FieldPrintable(f: Field) {
    Printable(f.key) && (f.value.Word? ==> Printable(f.value.text)) && (f.value.Str? ==> Printable(f.value.text))
    && (f.value.OneTag? ==> Printable(f.value.tag))
  }

  lemma ValueSteady(f: Field)
    requires FieldPrintable(f)
    ensures Steady(ValueText(f.value))
  {
    match f.value
    case Title(t) =>
      DumpPrintable(t);
      PrintableSteady(ValueText(f.value));
    case OneTag(t) => TagSteady(t);
    case _ => PrintableSteady(ValueText(f.value));
  }

  lemma TagSteady(t: string)
    requires Printable(t)
    ensures Steady("[\n        \"" + t + "\"\n      ]")
  {
    hide Steady;
    var line := "        \"" + t + "\"";
    PrintableSteady("[");
    PrintableSteady(line);
    PrintableSteady("      ]");
    SteadyLine("[", line);
    SteadyLine("[" + "\n" + line, "      ]");
    assert "[\n        \"" + t + "\"\n      ]" == "[" + "\n" + line + "\n" + "      ]";
  }

  lemma FieldSteady(f: Field)
    requires FieldPrintable(f)
    ensures Steady(FieldText(f)) && |FieldText(f)| > 2 && FieldText(f)[2] == ' '
  {
    hide Steady, ValueText;
    var head := "      \"" + f.key + "\": ";
    PrintableSteady(head);
    ValueSteady(f);
    SteadyJoin(head, ValueText(f.value));
  }

  lemma {:induction false} FieldsSteady(fs: seq<Field>)
    requires fs != [] && forall f :: f in fs ==> FieldPrintable(f)
    ensures var t := FieldsText(fs); Steady(t) && |t| > 2 && t[2] == ' '
    decreases fs
  {
    hide FieldText, FieldPrintable, Steady;
    var first := FieldText(fs[0]);
    FieldSteady(fs[0]);
    if |fs| > 1 {
      FieldsSteady(fs[1..]);
      PrintableSteady(",");
      SteadyJoin(first, ",");
      SteadyLine(first + ",", FieldsText(fs[1..]));
      assert FieldsText(fs) == first + "," + "\n" + FieldsText(fs[1..]);
    }
  }

  lemma ObjectSteady(fs: seq<Field>)
    requires fs != [] && forall f :: f in fs ==> FieldPrintable(f)
    ensures var t := ObjectText(fs); Steady(t) && |t| > 2 && t[2] == ' '
  {
    hide FieldsText, FieldPrintable, Steady;
    FieldsSteady(fs);
    PrintableSteady("    {");
    PrintableSteady("    }");
    SteadyLine("    {", FieldsText(fs));
    SteadyLine("    {" + "\n" + FieldsText(fs), "    }");
    assert ObjectText(fs) == "    {" + "\n" + FieldsText(fs) + "\n" + "    }";
  }

  lemma KeysPrintable()
    ensures Printable("asDropdown") && Printable("icon") && Printable("includeVars") && Printable("keepTime")
  {
  }

  lemma MoreKeysPrintable()
    ensures Printable("tags") && Printable("targetBlank") && Printable("title") && Printable("tooltip")
    ensures Printable("type") && Printable("url")
  {
  }

  lemma ValuesPrintable()
    ensures Printable("true") && Printable("false") && Printable("bolt") && Printable("link")
    ensures Printable("external link")
  {
  }

  lemma HomePrintable()
    ensures Printable("teslasync") && Printable("dashboards") && Printable(Opening())
  {
  }

  lemma CaptionsPrintable()
    ensures Printable("\U{25c0} Prev") && Printable("\U{26a1} TeslaSync") && Printable("Next \U{25b6}")
  {
  }

  lemma LiteralsPrintable()
    ensures Printable("asDropdown") && Printable("icon") && Printable("includeVars") && Printable("keepTime")
    ensures Printable("tags") && Printable("targetBlank") && Printable("title") && Printable("tooltip")
    ensures Printable("type") && Printable("url") && Printable("true") && Printable("false")
    ensures Printable("bolt") && Printable("link") && Printable("external link") && Printable("teslasync")
    ensures Printable("dashboards") && Printable(Opening())
    ensures Printable("\U{25c0} Prev") && Printable("\U{26a1} TeslaSync") && Printable("Next \U{25b6}")
  {
    hide *;
    KeysPrintable();
    MoreKeysPrintable();
    ValuesPrintable();
    HomePrintable();
    CaptionsPrintable();
  }

  lemma UrlPrintable(uid: string)
    requires PlainUid(uid)
    ensures Printable("/d/" + uid)
  {
  }

  lemma NeighbourSteady(caption: string, title: string, uid: string)
    requires PlainUid(uid) && Printable(caption)
    ensures var t := ObjectText(NeighbourLink(caption, title, uid)); Steady(t) && |t| > 2 && t[2] == ' '
  {
    hide Printable, ObjectText, Steady;
    LiteralsPrintable();
    UrlPrintable(uid);
    ObjectSteady(NeighbourLink(caption, title, uid));
  }

  lemma HomeSteady()
    ensures var t := ObjectText(HomeLink()); Steady(t) && |t| > 2 && t[2] == ' '
  {
    hide Printable, ObjectText, Steady;
    LiteralsPrintable();
    ObjectSteady(HomeLink());
  }

  lemma BlockSteady(prev: Entry, next: Entry)
    requires PlainUid(prev.uid) && PlainUid(next.uid)
    ensures Steady(Block(prev, next))
  {
    hide ObjectText, NeighbourLink, HomeLink, PlainUid, Opening, Steady, Printable;
    LiteralsPrintable();
    var a := ObjectText(NeighbourLink("\U{25c0} Prev", prev.title, prev.uid));
    var b := ObjectText(HomeLink());
    var c := ObjectText(NeighbourLink("Next \U{25b6}", next.title, next.uid));
    NeighbourSteady("\U{25c0} Prev", prev.title, prev.uid);
    NeighbourSteady("Next \U{25b6}", next.title, next.uid);
    HomeSteady();
    ThreeSteady(Opening(), a, b, c);
    BlockIs(prev, next);
    Opened(Opening(), a, b, c);
  }

  lemma ThreeSteady(open: string, a: string, b: string, c: string)
    requires Printable(open) && Steady(a) && Steady(b) && Steady(c)
    requires |a| > 2 && |b| > 2 && |c| > 2 && a[2] == b[2] == c[2] == ' '
    ensures Steady(open + "\n" + a + "," + "\n" + b + "," + "\n" + c + "\n" + "  ]")
  {
    hide Steady;
    PrintableSteady(open);
    PrintableSteady(",");
    PrintableSteady("  ]");
    SteadyLine(open, a);
    SteadyJoin(open + "\n" + a, ",");
    SteadyLine(open + "\n" + a + ",", b);
    SteadyJoin(open + "\n" + a + "," + "\n" + b, ",");
    SteadyLine(open + "\n" + a + "," + "\n" + b + ",", c);
    SteadyLine(open + "\n" + a + "," + "\n" + b + "," + "\n" + c, "  ]");
  }

  lemma Opened(open: string, a: string, b: string, c: string)
    ensures open + ("\n" + a + ",\n" + b + ",\n" + c + "\n  ") + "]"
      == open + "\n" + a + "," + "\n" + b + "," + "\n" + c + "\n" + "  ]"
  {
  }
}
