/**
 What scripts/fix_grafana_infra_links.py does to a dashboard without a links key: the
 object gets one member more, at its end.
*/
module LinksInsert {
  import opened Wrappers
  import opened PyStrings
  import opened LinksSpan
  import opened LinksSecondRun
  import opened LinksJson
  import Said = LinksBlock

  // ---------------------------------------------------------------- the end of an object

  predicate Newlines(t: string) {
    forall k :: 0 <= k < |t| ==> t[k] == '\n'
  }

  /** The words and numbers of JSON. */
  predicate IsJsonWord(t: string) {
    t == "true" || t == "false" || t == "null" || (t != "" && '0' <= t[|t| - 1] <= '9')
  }

  function LastValue(ms: seq<Member>): Json
    requires ms != []
  {
    ms[|ms| - 1].item.value
  }

  /** The members without the blanks behind the last of them. */
  function Cut(ms: seq<Member>): seq<Member>
    requires ms != []
  {
    var m := ms[|ms| - 1];
    ms[..|ms| - 1] + [m.(item := m.item.(after := ""))]
  }

  lemma OneMember(m: Member)
    ensures MembersText([m]) == MemberText(m) && MembersText([]) == ""
  {
  }

  lemma {:induction false} MembersLast(ms: seq<Member>, m: Member)
    ensures MembersText(ms + [m]) == MembersText(ms) + (if ms == [] then "" else ",") + MemberText(m)
    decreases ms
  {
    hide MemberText;
    OneMember(m);
    if ms == [] {
      assert ms + [m] == [m];
    } else {
      var all := ms + [m];
      assert all[0] == ms[0] && all[1..] == ms[1..] + [m];
      MembersLast(ms[1..], m);
      if |ms| == 1 {
        assert ms[1..] == [];
        OneMember(ms[0]);
        assert ms == [ms[0]];
      }
    }
  }

  lemma MemberEnds(m: Member)
    ensures MemberText(m) == MemberText(m.(item := m.item.(after := ""))) + m.item.after
    ensures var t := MemberText(m.(item := m.item.(after := ""))); var v := JsonText(m.item.value);
      |v| <= |t| && t[|t| - |v|..] == v
  {
    hide JsonText, Quoted;
    var v, front := JsonText(m.item.value), m.before + (Quoted(m.key) + (m.colon + (":" + m.item.before)));
    assert MemberText(m.(item := m.item.(after := ""))) == front + v;
    assert MemberText(m) == front + v + m.item.after;
  }

  lemma MembersEnd(ms: seq<Member>)
    requires ms != []
    ensures MembersText(ms) == MembersText(Cut(ms)) + ms[|ms| - 1].item.after
    ensures var t, v := MembersText(Cut(ms)), JsonText(LastValue(ms)); |v| <= |t| && t[|t| - |v|..] == v
  {
    hide MemberText, JsonText, MembersText;
    var k := |ms| - 1;
    var m := ms[k];
    var n := m.(item := m.item.(after := ""));
    MembersLast(ms[..k], m);
    MembersLast(ms[..k], n);
    assert ms[..k] + [m] == ms;
    MemberEnds(m);
    var lead, t, v := MembersText(ms[..k]) + (if ms[..k] == [] then "" else ","), MemberText(n), JsonText(m.item.value);
    EndOfJoin(lead, t, v);
  }

  lemma EndOfJoin(a: string, t: string, v: string)
    requires |v| <= |t| && t[|t| - |v|..] == v
    ensures (a + t)[|a + t| - |v|..] == v
  {
  }

  // ---------------------------------------------------------------- the insert branch

  lemma BlankSpace(t: string)
    requires Blank(t)
    ensures forall k :: 0 <= k < |t| ==> IsSpace(t[k])
  {
    assert forall k :: 0 <= k < |t| ==> t[k] in t;
  }

  lemma {:induction false} StripTo(m: string, b: string)
    requires (forall k :: 0 <= k < |b| ==> IsSpace(b[k])) && (m != "" ==> !IsSpace(m[|m| - 1]))
    ensures RStrip(m + b) == m
    decreases b
  {
    if b == "" {
      assert m + b == m;
    } else {
      assert (m + b)[..|m + b| - 1] == m + b[..|b| - 1];
      StripTo(m, b[..|b| - 1]);
    }
  }

  lemma {:induction false} StripNewlinesTo(m: string, b: string)
    requires Newlines(b) && (m != "" ==> m[|m| - 1] != '\n')
    ensures RStripNewlines(m + b) == m
    decreases b
  {
    if b == "" {
      assert m + b == m;
    } else {
      assert (m + b)[..|m + b| - 1] == m + b[..|b| - 1];
      StripNewlinesTo(m, b[..|b| - 1]);
    }
  }

  lemma BlankPrefix(b: string)
    requires Blank(b) && b != ""
    ensures Blank(b[..|b| - 1])
  {
    var p := b[..|b| - 1];
    forall c | c in p
      ensures c in b
    {
      var k :| 0 <= k < |p| && p[k] == c;
      assert b[k] == c;
    }
  }

  /** A brace is found at the end exactly when only newlines follow it. */
  lemma {:induction false} BraceLast(m: string, b: string)
    requires m != "" && m[|m| - 1] == '}' && Blank(b)
    ensures EndsWith(RStripNewlines(m + b), "}") <==> Newlines(b)
    decreases b
  {
    if b == "" {
      assert m + b == m && m[|m| - 1..] == "}";
    } else {
      var last := b[|b| - 1];
      assert last in b;
      assert (m + b)[..|m + b| - 1] == m + b[..|b| - 1] && (m + b)[|m + b| - 1] == last;
      if last == '\n' {
        BlankPrefix(b);
        BraceLast(m, b[..|b| - 1]);
      } else {
        assert (m + b)[|m + b| - 1..] == [last];
      }
    }
  }

  /** What the value before the last brace leaves at the end of the body. */
  lemma ValueAtEnd(x: string, v: Json)
    requires Valid(v) && (v.Scalar? ==> IsJsonWord(v.text))
    requires |JsonText(v)| <= |x| && x[|x| - |JsonText(v)|..] == JsonText(v)
    ensures EndsValue(x) && !IsSpace(x[|x| - 1])
  {
    hide ItemsText, MembersText, Raw, ValidItem, ValidMember;
    var t := JsonText(v);
    ValueEnds(v);
    assert x[|x| - 1] == t[|t| - 1];
    if v.Scalar? {
      WordAtEnd(x, t);
    } else {
      CloserAtEnd(t[|t| - 1]);
    }
  }

  lemma CloserAtEnd(c: char)
    requires c == '}' || c == ']' || c == '"'
    ensures c in "}]\"" && !IsSpace(c)
  {
    assert "}]\""[0] == '}' && "}]\""[1] == ']' && "}]\""[2] == '"';
  }

  lemma WordAtEnd(x: string, t: string)
    requires IsJsonWord(t) && |t| <= |x| && x[|x| - |t|..] == t
    ensures EndsValue(x) && !IsSpace(x[|x| - 1])
  {
    assert x[|x| - 1] == t[|t| - 1];
  }

  /** An object with its closing brace, and the text that ends in it. */
  function Front(doc: Item): string
    requires doc.value.Record?
  {
    doc.before + ("{" + (doc.value.gap + MembersText(doc.value.members)))
  }

  lemma DocText(doc: Item)
    requires doc.value.Record?
    ensures ItemText(doc) == (Front(doc) + "}") + doc.after
  {
    hide MembersText;
  }

  /** Which objects the insert branch takes, and the body it leaves of them. */
  lemma BodyIff(doc: Item)
    requires ValidItem(doc) && doc.value.Record?
    requires doc.value.members != [] ==>
      var v := LastValue(doc.value.members); v.Scalar? ==> IsJsonWord(v.text)
    ensures BodyOf(ItemText(doc)).Some? <==> Newlines(doc.after) && doc.value.members != []
    ensures BodyOf(ItemText(doc)).Some? ==>
      BodyOf(ItemText(doc)) == Some(doc.before + ("{" + MembersText(Cut(doc.value.members))))
  {
    hide MembersText, RStrip, RStripNewlines, EndsValue, IsJsonWord, Blank, Newlines, ValidMember;
    var text, front := ItemText(doc), Front(doc);
    DocText(doc);
    BlankSpace(doc.after);
    BraceNoSpace();
    StripTo(front + "}", doc.after);
    assert (front + "}")[|front|..] == "}";
    BraceLast(front + "}", doc.after);
    if Newlines(doc.after) {
      StripNewlinesTo(front + "}", doc.after);
      assert (front + "}")[..|front|] == front;
      if doc.value.members == [] {
        NoMemberBody(doc);
      } else {
        MemberBody(doc);
      }
    }
  }

  lemma BraceNoSpace()
    ensures !IsSpace('}') && !IsSpace('{')
  {
  }

  lemma NoMemberBody(doc: Item)
    requires ValidItem(doc) && doc.value.Record? && doc.value.members == []
    ensures !EndsValue(RStrip(Front(doc)))
  {
    hide RStrip;
    var gap := doc.value.gap;
    BlankSpace(gap);
    var m := doc.before + "{";
    assert Front(doc) == m + gap;
    StripTo(m, gap);
    BraceValue(m);
  }

  lemma BraceValue(m: string)
    requires m != "" && m[|m| - 1] == '{'
    ensures !EndsValue(m)
  {
    assert "}]\""[0] == '}' && "}]\""[1] == ']' && "}]\""[2] == '"';
    assert "false"[4] == 'e' && "true"[3] == 'e' && "null"[3] == 'l';
    LastOf(m, "false");
    LastOf(m, "true");
    LastOf(m, "null");
  }

  lemma LastOf(m: string, w: string)
    requires w != "" && m != ""
    ensures EndsWith(m, w) ==> m[|m| - 1] == w[|w| - 1]
  {
  }

  lemma MemberBody(doc: Item)
    requires ValidItem(doc) && doc.value.Record? && doc.value.members != []
    requires var v := LastValue(doc.value.members); v.Scalar? ==> IsJsonWord(v.text)
    ensures var x := doc.before + ("{" + MembersText(Cut(doc.value.members)));
      RStrip(Front(doc)) == x && EndsValue(x)
  {
    hide MembersText, RStrip, EndsValue, IsJsonWord, JsonText, Valid, Blank, ValidItem, Cut, LastValue, Front;
    var ms := doc.value.members;
    var x, after := doc.before + ("{" + MembersText(Cut(ms))), ms[|ms| - 1].item.after;
    LastValid(doc);
    FrontIs(doc);
    BodyEnds(doc.before, ms);
    ValueAtEnd(x, LastValue(ms));
    BlankSpace(after);
    StripTo(x, after);
  }

  lemma FrontIs(doc: Item)
    requires doc.value.Record? && doc.value.members != [] && doc.value.gap == ""
    ensures var ms := doc.value.members;
      Front(doc) == (doc.before + ("{" + MembersText(Cut(ms)))) + ms[|ms| - 1].item.after
  {
    hide MembersText, Cut;
    var ms := doc.value.members;
    MembersEnd(ms);
    var t, after := MembersText(Cut(ms)), ms[|ms| - 1].item.after;
    assert doc.before + ("{" + ("" + (t + after))) == (doc.before + ("{" + t)) + after;
  }

  lemma BodyEnds(before: string, ms: seq<Member>)
    requires ms != []
    ensures var x, v := before + ("{" + MembersText(Cut(ms))), JsonText(LastValue(ms));
      |v| <= |x| && x[|x| - |v|..] == v
  {
    hide MembersText, JsonText, Cut, LastValue;
    MembersEnd(ms);
    var t, v := MembersText(Cut(ms)), JsonText(LastValue(ms));
    EndOfJoin(before + "{", t, v);
    assert before + ("{" + t) == (before + "{") + t;
  }

  lemma LastValid(doc: Item)
    requires ValidItem(doc) && doc.value.Record? && doc.value.members != []
    ensures var ms := doc.value.members;
      doc.value.gap == "" && Valid(LastValue(ms)) && Blank(ms[|ms| - 1].item.after)
  {
    hide Raw;
    var ms := doc.value.members;
    assert Valid(doc.value) && ValidMember(ms[|ms| - 1]);
    MemberParts(ms[|ms| - 1]);
  }

  lemma MemberParts(m: Member)
    requires ValidMember(m)
    ensures Valid(m.item.value) && Blank(m.item.after)
  {
    hide Valid, Blank, Raw;
    assert ValidItem(m.item);
  }

  // ---------------------------------------------------------------- the file with one member more

  function LinksMember(v: Json): Member {
    Member("\n  ", "links", "", Item(" ", v, "\n"))
  }

  /** The object with a links member at its end. */
  function Extended(doc: Item, v: Json): Item
    requires doc.value.Record? && doc.value.members != []
  {
    Item(doc.before, Record("", Cut(doc.value.members) + [LinksMember(v)]), "\n")
  }

  lemma ExtendedText(doc: Item, v: Json, block: string)
    requires doc.value.Record? && doc.value.members != [] && block == "  \"links\": " + JsonText(v)
    ensures ItemText(Extended(doc, v)) ==
      (doc.before + ("{" + MembersText(Cut(doc.value.members)))) + "," + "\n" + block + "\n}\n"
  {
    hide JsonText, MembersText, MemberText;
    var ms := Cut(doc.value.members);
    MembersLast(ms, LinksMember(v));
    LinksMemberText(v, block);
    DocText(Extended(doc, v));
    var t := MembersText(ms);
    assert (doc.before + ("{" + ("" + (t + "," + ("\n" + block + "\n")))) + "}") + "\n"
        == (doc.before + ("{" + t)) + "," + "\n" + block + "\n}\n";
  }

  lemma LinksMemberText(v: Json, block: string)
    requires block == "  \"links\": " + JsonText(v)
    ensures MemberText(LinksMember(v)) == "\n" + block + "\n"
  {
    hide JsonText;
    var t := JsonText(v);
    assert "\n  " + (("\"" + "links" + "\"") + ("" + (":" + (" " + (t + "\n"))))) ==
      "\n" + ("  \"links\": " + t) + "\n";
  }

  /** A dashboard without a links key is extended if and only if it has a member and only
      newlines behind its brace. It is then written as the same object with one member
      more: the links to the dashboards before and behind. */
  lemma InsertedIff(doc: Item, prev: Entry, next: Entry) returns (v: Json)
    requires ValidItem(doc) && doc.value.Record? && NoNeedle(ItemText(doc))
    requires doc.value.members != [] ==>
      var last := LastValue(doc.value.members); last.Scalar? ==> IsJsonWord(last.text)
    requires PlainUid(prev.uid) && PlainUid(next.uid)
    ensures Valid(v) && v.List? && |v.items| == 3
    ensures Said.LinksTo(v.items[0].value, "\U{25c0} Prev", prev) && Said.IsMenu(v.items[1].value)
            && Said.LinksTo(v.items[2].value, "Next \U{25b6}", next)
    ensures Threaded(ItemText(doc), Block(prev, next)) ==
      if Newlines(doc.after) && doc.value.members != [] then Some(ItemText(Extended(doc, v))) else None
  {
    hide ItemText, Block, BodyOf, Span, JsonText, MembersText, Said.LinksTo, Said.IsMenu, IsJsonWord, Newlines, Valid;
    v := Said.BlockMeans(prev, next);
    var text, block := ItemText(doc), Block(prev, next);
    BodyIff(doc);
    NoNeedleNoSpan(text);
    if Newlines(doc.after) && doc.value.members != [] {
      InsertedIs(text, block);
      ExtendedText(doc, v, block);
    } else {
      RefusedThen(text, block);
    }
  }

  lemma NoNeedleNoSpan(text: string)
    requires NoNeedle(text)
    ensures Span(text) == None
  {
    hide Find;
  }
}
