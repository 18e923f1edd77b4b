/**
 The converse of ProtoGrammar: whatever the parser of cmd/protogen-tesla/parser.go
 accepts is the writing of a syntax tree, and means what it was read as.
*/
module ProtoAccepts {
  import opened Wrappers
  import opened Strconv
  import opened ProtoLexer
  import opened ProtoParser
  import opened ProtoSkips
  import opened ProtoGrammar

  // ---------------------------------------------------------------- everything parsed is a tree

  lemma SkipBracketsSplit(ls: seq<Lex>) returns (g: seq<Lex>)
    requires Stream(ls)
    ensures ls == g + SkipBrackets(ls, 1)
    ensures Group(g, 1, SquareOnly) || |SkipBrackets(ls, 1)| == 1
  {
    SkipBracketsCases(ls, 1);
    g := ls[..|ls| - |SkipBrackets(ls, 1)|];
  }

  lemma OptionsAccepted(ls: seq<Lex>) returns (opts: seq<Lex>)
    requires Stream(ls)
    ensures ls == opts + SkipOptions(ls)
    ensures opts == [] || BracketGroup(opts) || |SkipOptions(ls)| == 1
  {
    hide Group;
    if IsP(ls[0], "[") {
      assert SkipOptions(ls) == SkipBrackets(ls[1..], 1);
      hide SkipBrackets;
      var g := SkipBracketsSplit(ls[1..]);
      opts := [ls[0]] + g;
      assert opts[1..] == g;
      assert ls == [ls[0]] + ls[1..];
    } else {
      opts := [];
    }
  }

  /** What a successful `ParseTail` has seen. */
  lemma TailShape(ls: seq<Lex>)
    requires Stream(ls) && ParseTail(ls).Done?
    ensures |ls| > 2 && Stream(ls[2..]) && ls[0] == Sign("=") && ls[1].kind == Number
    ensures ParseInt32(ls[1].value) == Some(ParseTail(ls).value)
    ensures SkipOptions(ls[2..]) == [Sign(";")] + ParseTail(ls).rest
    ensures |SkipOptions(ls[2..])| > 1
  {
    hide SkipBrackets, ParseInt32;
    assert ls[1..][1..] == ls[2..];
  }

  lemma TailAccepted(ls: seq<Lex>) returns (digits: string, opts: seq<Lex>)
    requires Stream(ls) && ParseTail(ls).Done?
    ensures ValidTail(digits, opts)
    ensures ls == TailTokens(digits, opts, ParseTail(ls).rest) && ParseTail(ls).value == NumberOf(digits)
  {
    hide ParseTail, ParseInt32, BracketGroup, SkipBrackets, IsP;
    TailShape(ls);
    digits := ls[1].value;
    opts := OptionsAccepted(ls[2..]);
    hide SkipOptions;
    var r3, k := SkipOptions(ls[2..]), ParseTail(ls).rest;
    assert r3 == [Sign(";")] + k;
    assert ls[1] == Lex(Number, digits);
    assert ls == [ls[0]] + ([ls[1]] + ls[2..]);
  }

  lemma FieldAccepted(ls: seq<Lex>, repeated: bool) returns (f: FieldSyntax)
    requires Stream(ls) && ParseField(ls, repeated).Done?
    ensures ValidField(f) && ls == FieldTokens(f, ParseField(ls, repeated).rest)
    ensures ParseField(ls, repeated).value == FieldOf(f, repeated)
  {
    var r2 := ls[1..][1..];
    var digits, opts := TailAccepted(r2);
    f := FieldSyntax(ls[0].value, ls[1].value, digits, opts);
    assert ls == [ls[0]] + ([ls[1]] + r2);
  }

  /** What is left of the whole parse after a skipped statement shows that the
      statement was not cut off by the end of the file. */
  lemma SkippedAccepted(ls: seq<Lex>, words: set<string>)
    requires Stream(ls) && IsWord(ls[0], words)
    ensures var r := SkipStatement(ls, 0);
      ls == ls[..|ls| - |r|] + r && (SkippedBy(ls[..|ls| - |r|], words) || |r| == 1)
  {
    SkipStatementCases(ls, 0);
  }

  lemma EnumEntryAccepted(ls: seq<Lex>) returns (e: EnumEntry)
    requires Stream(ls) && EnumItem(ls).Done? && |EnumItem(ls).rest| > 1
    ensures ValidEnumEntry(e) && ls == EnumEntryTokens(e, EnumItem(ls).rest)
    ensures EnumItem(ls).value == EntryValues(e)
  {
    var r := EnumItem(ls).rest;
    if IsWord(ls[0], SKIP_WORDS) {
      SkippedAccepted(ls, SKIP_WORDS);
      e := EnumSkip(ls[..|ls| - |r|]);
    } else {
      var digits, opts := TailAccepted(ls[1..]);
      e := EnumVal(ls[0].value, digits, opts);
      assert ls == [ls[0]] + ls[1..];
    }
  }

  lemma EofEndsNoEnum(ls: seq<Lex>, ed: EnumDef)
    requires Stream(ls) && |ls| == 1
    ensures EnumBody(ls, ed).Bad?
  {
  }

  lemma {:induction false} EnumAccepted(ls: seq<Lex>, ed: EnumDef) returns (es: seq<EnumEntry>)
    requires Stream(ls) && EnumBody(ls, ed).Done?
    ensures forall e :: e in es ==> ValidEnumEntry(e)
    ensures ls == EnumTokens(es, EnumBody(ls, ed).rest)
    ensures EnumBody(ls, ed).value == ed.(values := ed.values + ValuesOf(es))
    decreases |ls|
  {
    hide EnumItem, EnumEntryTokens, EntryValues, ValidEnumEntry;
    if IsP(ls[0], "}") {
      es := [];
      assert ls == [Sign("}")] + ls[1..];
      assert ed.values + [] == ed.values;
    } else {
      var r, vs := EnumItem(ls).rest, EnumItem(ls).value;
      if |r| == 1 {
        EofEndsNoEnum(r, ed.(values := ed.values + vs));
      }
      var e := EnumEntryAccepted(ls);
      var rest := EnumAccepted(r, ed.(values := ed.values + vs));
      es := [e] + rest;
      assert es[1..] == rest;
      assert (ed.values + vs) + ValuesOf(rest) == ed.values + ValuesOf(es);
    }
  }

  lemma OneofEntryAccepted(ls: seq<Lex>) returns (e: OneofEntry)
    requires Stream(ls) && OneofItem(ls).Done? && |OneofItem(ls).rest| > 1
    ensures ValidOneofEntry(e) && ls == OneofEntryTokens(e, OneofItem(ls).rest)
    ensures OneofItem(ls).value == EntryVariants(e)
  {
    var r := OneofItem(ls).rest;
    if IsWord(ls[0], SKIP_WORDS) {
      SkippedAccepted(ls, SKIP_WORDS);
      e := OneofSkip(ls[..|ls| - |r|]);
    } else {
      var f := FieldAccepted(ls, false);
      e := Variant(f);
    }
  }

  lemma EofEndsNoOneof(ls: seq<Lex>, od: OneofDef)
    requires Stream(ls) && |ls| == 1
    ensures OneofBody(ls, od).Bad?
  {
  }

  lemma {:induction false} OneofAccepted(ls: seq<Lex>, od: OneofDef) returns (es: seq<OneofEntry>)
    requires Stream(ls) && OneofBody(ls, od).Done?
    ensures forall e :: e in es ==> ValidOneofEntry(e)
    ensures ls == OneofTokens(es, OneofBody(ls, od).rest)
    ensures OneofBody(ls, od).value == od.(variants := od.variants + VariantsOf(es))
    decreases |ls|
  {
    hide OneofItem, OneofEntryTokens, EntryVariants, ValidOneofEntry;
    if IsP(ls[0], "}") {
      es := [];
      assert ls == [Sign("}")] + ls[1..];
      assert od.variants + [] == od.variants;
    } else {
      var r, vs := OneofItem(ls).rest, OneofItem(ls).value;
      if |r| == 1 {
        EofEndsNoOneof(r, od.(variants := od.variants + vs));
      }
      var e := OneofEntryAccepted(ls);
      var rest := OneofAccepted(r, od.(variants := od.variants + vs));
      es := [e] + rest;
      assert es[1..] == rest;
      assert (od.variants + vs) + VariantsOf(rest) == od.variants + VariantsOf(es);
    }
  }

  lemma NamedAccepted(ls: seq<Lex>)
    requires Stream(ls) && ExpectIdent(ls).Done? && ExpectPunct(ls[1..], "{").Done?
    ensures Stream(ls[2..]) && ls == Named(ls[0].value, ls[2..])
  {
    assert ls[1..][1..] == ls[2..];
    assert ls == [ls[0]] + ([ls[1]] + ls[2..]);
  }

  lemma NestedAccepted(ls: seq<Lex>) returns (body: seq<Lex>)
    requires Stream(ls) && SkipNested(ls).Done? && |SkipNested(ls).rest| > 1
    ensures Group(body, 1, CurlyOnly) && ls == NestedTokens(ls[0].value, body, SkipNested(ls).rest)
  {
    NamedAccepted(ls);
    assert ls[1..][1..] == ls[2..];
    SkipBracesCases(ls[2..], 1);
    body := ls[2..][..|ls[2..]| - |SkipBraces(ls[2..], 1)|];
  }

  lemma OneofDeclAccepted(ls: seq<Lex>) returns (es: seq<OneofEntry>)
    requires Stream(ls) && ParseOneof(ls).Done?
    ensures forall e :: e in es ==> ValidOneofEntry(e)
    ensures ls == Named(ls[0].value, OneofTokens(es, ParseOneof(ls).rest))
    ensures ParseOneof(ls).value == OneofDef(ls[0].value, VariantsOf(es))
  {
    NamedAccepted(ls);
    assert ls[1..][1..] == ls[2..];
    es := OneofAccepted(ls[2..], OneofDef(ls[0].value, []));
    assert [] + VariantsOf(es) == VariantsOf(es);
  }

  lemma MessageEntryAccepted(ls: seq<Lex>) returns (e: MessageEntry)
    requires Stream(ls) && MessageItem(ls).Done? && |MessageItem(ls).rest| > 1
    ensures ValidMessageEntry(e) && ls == MessageEntryTokens(e, MessageItem(ls).rest)
    ensures MessageItem(ls).value == EntryMembers(e)
  {
    hide ParseField, FieldTokens, ParseOneof, SkipNested, Named, NestedTokens, OneofTokens, SkipStatement;
    var r := MessageItem(ls).rest;
    assert ls == [ls[0]] + ls[1..];
    if IsWord(ls[0], SKIP_WORDS) {
      SkippedAccepted(ls, SKIP_WORDS);
      e := MessageSkip(ls[..|ls| - |r|]);
    } else if IsWord(ls[0], {"oneof"}) {
      var es := OneofDeclAccepted(ls[1..]);
      e := OneofEntry(ls[1].value, es);
    } else if IsWord(ls[0], {"message", "enum"}) {
      var body := NestedAccepted(ls[1..]);
      e := Nested(ls[0].value, ls[1].value, body);
    } else if IsWord(ls[0], {"repeated"}) {
      var f := FieldAccepted(ls[1..], true);
      e := Repeated(f);
    } else {
      var f := FieldAccepted(ls, false);
      e := Plain(f);
    }
  }

  lemma {:induction false} MessageAccepted(ls: seq<Lex>, md: MessageDef) returns (es: seq<MessageEntry>)
    requires Stream(ls) && MessageBody(ls, md).Done?
    ensures forall e :: e in es ==> ValidMessageEntry(e)
    ensures ls == MessageTokens(es, MessageBody(ls, md).rest)
    ensures MessageBody(ls, md).value == AddMembers(md, MembersOf(es))
    decreases |ls|
  {
    hide MessageItem, MessageEntryTokens, EntryMembers, ValidMessageEntry;
    if IsP(ls[0], "}") {
      es := [];
      assert ls == [Sign("}")] + ls[1..];
      assert md.fields + [] == md.fields && md.oneofs + [] == md.oneofs;
    } else {
      var r, m := MessageItem(ls).rest, MessageItem(ls).value;
      if |r| == 1 {
        EofEndsNoMessage(r, AddMembers(md, m));
      }
      var e := MessageEntryAccepted(ls);
      var rest := MessageAccepted(r, AddMembers(md, m));
      es := [e] + rest;
      assert es[1..] == rest;
      AddMembersTwice(md, m, MembersOf(rest));
    }
  }

  lemma EofEndsNoMessage(ls: seq<Lex>, md: MessageDef)
    requires Stream(ls) && |ls| == 1
    ensures MessageBody(ls, md).Bad?
  {
  }

  lemma TopEntryAccepted(ls: seq<Lex>) returns (e: TopEntry)
    requires Stream(ls) && TopItem(ls).Done?
    requires IsWord(ls[0], TOP_SKIP_WORDS) ==> Statement(ls[..|ls| - |SkipStatement(ls, 0)|], 0)
    ensures ValidTopEntry(e) && ls == TopEntryTokens(e, TopItem(ls).rest)
    ensures TopItem(ls).value == EntryDecls(e)
  {
    hide Named, EnumTokens, MessageTokens, SkipStatement, MessageBody, EnumBody;
    var r := TopItem(ls).rest;
    assert ls == [ls[0]] + ls[1..];
    if ls[0].value in TOP_SKIP_WORDS {
      SkippedAccepted(ls, TOP_SKIP_WORDS);
      e := TopSkip(ls[..|ls| - |r|]);
    } else {
      var name, body := ls[1].value, ls[1..][2..];
      NamedAccepted(ls[1..]);
      assert ls[1..][1..][1..] == body;
      if ls[0].value == "enum" {
        var vs := EnumAccepted(body, EnumDef(name, []));
        assert [] + ValuesOf(vs) == ValuesOf(vs);
        e := EnumEntry(name, vs);
      } else {
        var ms := MessageAccepted(body, MessageDef(name, [], []));
        assert [] + MembersOf(ms).fields == MembersOf(ms).fields && [] + MembersOf(ms).oneofs == MembersOf(ms).oneofs;
        e := MessageEntry(name, ms);
      }
    }
  }

  lemma CutAccepted(ls: seq<Lex>, pf: ProtoFile) returns (f: FileSyntax)
    requires Stream(ls) && IsWord(ls[0], TOP_SKIP_WORDS)
    requires !Statement(ls[..|ls| - |SkipStatement(ls, 0)|], 0)
    ensures ValidFile(f) && ls == FileTokens(f) && f.entries == []
    ensures FileBody(ls, pf) == Done(AddDecls(pf, DeclsOf(f.entries)), [EOF_LEX])
  {
    SkipStatementCases(ls, 0);
    var cut := ls[..|ls| - 1];
    f := FileSyntax([], cut);
    StreamParts(ls);
    assert ls == cut + [EOF_LEX];
    forall n | 0 < n <= |cut|
      ensures !Statement(cut[..n], 0)
    {
      if Statement(cut[..n], 0) {
        StreamDrop(ls, n);
        assert cut[..n] + ls[n..] == ls;
        assert ls[..n] == cut[..n];
        SkipStatementStops(cut[..n], 0, ls[n..]);
      }
    }
    CutSkipped(cut, pf);
    assert pf.enums + [] == pf.enums && pf.messages + [] == pf.messages;
  }

  lemma {:induction false} StreamParts(ls: seq<Lex>)
    requires Stream(ls)
    ensures NoEof(ls[..|ls| - 1]) && ls[|ls| - 1] == EOF_LEX
  {
    if |ls| > 1 {
      StreamParts(ls[1..]);
      assert ls[..|ls| - 1] == [ls[0]] + ls[1..][..|ls[1..]| - 1];
    }
  }

  lemma {:induction false} StreamDrop(ls: seq<Lex>, n: nat)
    requires Stream(ls) && n < |ls|
    ensures Stream(ls[n..])
  {
    if n > 0 {
      StreamDrop(ls[1..], n - 1);
      assert ls[1..][n - 1..] == ls[n..];
    }
  }

  lemma {:induction false} FileAccepted(ls: seq<Lex>, pf: ProtoFile) returns (f: FileSyntax)
    requires Stream(ls) && FileBody(ls, pf).Done?
    ensures ValidFile(f) && ls == FileTokens(f)
    ensures FileBody(ls, pf).value == AddDecls(pf, DeclsOf(f.entries))
    decreases |ls|
  {
    hide TopItem, EntryDecls, TopEntryTokens, ValidTopEntry;
    if ls[0].kind == EOF {
      f := FileSyntax([], []);
      assert [] + [EOF_LEX] == ls;
      assert pf.enums + [] == pf.enums && pf.messages + [] == pf.messages;
    } else if IsWord(ls[0], TOP_SKIP_WORDS) && !Statement(ls[..|ls| - |SkipStatement(ls, 0)|], 0) {
      f := CutAccepted(ls, pf);
    } else {
      var r, d := TopItem(ls).rest, TopItem(ls).value;
      var e := TopEntryAccepted(ls);
      var rest := FileAccepted(r, AddDecls(pf, d));
      f := FileSyntax([e] + rest.entries, rest.cut);
      assert f.entries[1..] == rest.entries;
      AddDeclsTwice(pf, d, DeclsOf(rest.entries));
    }
  }

  /** The parser accepts exactly the token streams of syntax trees, and returns
      exactly the model of the tree. */
  lemma AcceptsExactlyTheGrammar(ls: seq<Lex>, m: ProtoFile)
    requires Stream(ls)
    ensures (ParseFile(ls).Done? && ParseFile(ls).value == m)
       <==> exists f :: ValidFile(f) && FileTokens(f) == ls && FileOf(f) == m
  {
    if ParseFile(ls).Done? && ParseFile(ls).value == m {
      var f := FileAccepted(ls, ProtoFile("", [], []));
      assert [] + DeclsOf(f.entries).enums == DeclsOf(f.entries).enums;
      assert [] + DeclsOf(f.entries).messages == DeclsOf(f.entries).messages;
      assert ValidFile(f) && FileTokens(f) == ls && FileOf(f) == m;
    }
    if f :| ValidFile(f) && FileTokens(f) == ls && FileOf(f) == m {
      FileParses(f);
    }
  }
}
