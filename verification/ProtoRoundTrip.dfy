/**
 From text to model and back: tokenizing and parsing together.

 `PrintFile` is a reference printer for models; `ReadProto` is the tokenizer
 followed by the parser.
*/
module ProtoRoundTrip {
  import opened Wrappers
  import opened Strconv
  import opened ProtoLexer
  import opened ProtoLexerTheory
  import opened ProtoParser
  import opened ProtoParserObject
  import opened ProtoGrammar
  import opened ProtoAccepts
  import opened ProtoSkips

  datatype ReadError = BadText(lexical: LexFailure) | BadSyntax(at: Token, what: Complaint)

  lemma {:induction false} LexesNoEof(s: string, i: nat)
    requires i <= |s| && LexAt(s, i).Ok?
    ensures forall l :: l in LexAt(s, i).value ==> l.lex.kind != EOF
    decreases |s| - i
  {
    if i < |s| {
      LexesNoEof(s, StepAt(s, i).next);
    }
  }

  /** Tokenizing a text that lexes gives its tokens and the EOF token. */
  lemma TokenStream(src: string, ls: seq<Lexeme>)
    requires LexAt(src, 0) == Ok(ls)
    ensures TokenizeSpec(src).Ok? && LexSeq(TokenizeSpec(src).value) == LexesOf(ls) + [EOF_LEX]
    ensures Stream(LexesOf(ls) + [EOF_LEX])
  {
    LexesNoEof(src, 0);
    var ts := TokensOf(src, ls);
    assert LexSeq(ts + [TokenAt(src, EOF_LEX, |src|)]) == LexesOf(ls) + [EOF_LEX];
    assert forall l :: l in LexesOf(ls) ==> l.kind != EOF by {
      forall l | l in LexesOf(ls)
        ensures l.kind != EOF
      {
        var k :| 0 <= k < |ls| && LexesOf(ls)[k] == l;
        assert ls[k] in ls;
      }
    }
    assert Stream([EOF_LEX]);
    StreamAppend(LexesOf(ls), [EOF_LEX]);
  }

  /** `ParseProtoFile` up to canonicalization, on the text of the file. */
  function ReadProto(src: string): (r: Result<ProtoFile, ReadError>)
    ensures r.Ok? <==> Lexes(src).Some? && Stream(Lexes(src).value + [EOF_LEX])
                       && ParseFile(Lexes(src).value + [EOF_LEX]).Done?
    ensures r.Ok? ==> r.value == ParseFile(Lexes(src).value + [EOF_LEX]).value
  {
    match TokenizeSpec(src)
    case Err(e) => Err(BadText(e))
    case Ok(ts) =>
      TokenStream(src, LexAt(src, 0).value);
      match ParseFile(LexSeq(ts))
      case Done(pf, _) => Ok(pf)
      case Bad(what, left) => FileBodyLeft(LexSeq(ts)); Err(BadSyntax(ts[|ts| - left], what))
  }

  lemma FileBodyLeft(ls: seq<Lex>)
    requires Stream(ls) && ParseFile(ls).Bad?
    ensures 1 <= ParseFile(ls).left <= |ls|
  {
  }

  /** The tokenizer and the parser object together compute `ReadProto`: on every
      input they end with a model or an error. */
  method ReadProtoText(src: string) returns (r: Result<ProtoFile, ReadError>)
    ensures r == ReadProto(src)
  {
    var ts := Tokenize(src);
    if ts.Err? {
      return Err(BadText(ts.error));
    }
    TokenStream(src, LexAt(src, 0).value);
    var p := new Parser(ts.value);
    var pf := p.ParseFile();
    if pf.Err? {
      return Err(BadSyntax(pf.error.at, pf.error.what));
    }
    return Ok(pf.value);
  }

  /** Any printing of a syntax tree, whatever its layout and whatever it holds
      that the parser skips, is read as the model the tree denotes. */
  lemma AnyLayoutReads(f: FileSyntax, ps: seq<Printed>, tail: string)
    requires ValidFile(f) && WellSpaced(ps, tail) && PrintedLexes(ps) + [EOF_LEX] == FileTokens(f)
    ensures ReadProto(Render(ps, tail)) == Ok(FileOf(f))
  {
    RenderLexes(ps, tail);
    FileParses(f);
  }

  /** Package statements are skipped, so no model ever has a package. */
  lemma PackageNeverRead(src: string)
    requires ReadProto(src).Ok?
    ensures ReadProto(src).value.package == ""
  {
    var ls, m := Lexes(src).value + [EOF_LEX], ReadProto(src).value;
    AcceptsExactlyTheGrammar(ls, m);
    var f :| ValidFile(f) && FileTokens(f) == ls && FileOf(f) == m;
  }

  // ---------------------------------------------------------------- reference printer

  predicate IsIdent(s: string) {
    s != "" && IsIdentStart(s[0]) && forall k :: 0 <= k < |s| ==> IsIdentTail(s[k])
  }

  predicate IsInt32(n: int) {
    -0x8000_0000 <= n <= 0x7fff_ffff
  }

  predicate PrintableField(f: FieldDef) {
    IsIdent(f.name) && IsIdent(f.typ) && IsInt32(f.number)
  }

  predicate PrintableEnum(e: EnumDef) {
    && IsIdent(e.name)
    && forall v :: v in e.values ==> IsIdent(v.name) && v.name !in SKIP_WORDS && IsInt32(v.number)
  }

  predicate PrintableOneof(o: OneofDef) {
    && IsIdent(o.name)
    && forall v :: v in o.variants ==> PrintableField(v) && !v.repeated && v.typ !in SKIP_WORDS
  }

  predicate PrintableMessage(m: MessageDef) {
    && IsIdent(m.name)
    && (forall f :: f in m.fields ==> PrintableField(f) && (f.repeated || f.typ !in MESSAGE_WORDS))
    && forall o :: o in m.oneofs ==> PrintableOneof(o)
  }

  /** A model that can be written down: identifiers, 32-bit numbers, no name the
      parser would take for a keyword, no repeated oneof variant, no package. */
  predicate PrintableFile(pf: ProtoFile) {
    && pf.package == ""
    && (forall e :: e in pf.enums ==> PrintableEnum(e))
    && forall m :: m in pf.messages ==> PrintableMessage(m)
  }

  function FieldTree(f: FieldDef): FieldSyntax {
    FieldSyntax(f.typ, f.name, IntText(f.number), [])
  }

  function ValueTrees(vs: seq<EnumValue>): seq<EnumEntry> {
    if vs == [] then [] else [EnumVal(vs[0].name, IntText(vs[0].number), [])] + ValueTrees(vs[1..])
  }

  function VariantTrees(vs: seq<FieldDef>): seq<OneofEntry> {
    if vs == [] then [] else [Variant(FieldTree(vs[0]))] + VariantTrees(vs[1..])
  }

  function FieldEntry(f: FieldDef): MessageEntry {
    if f.repeated then Repeated(FieldTree(f)) else Plain(FieldTree(f))
  }

  function OneofTree(o: OneofDef): MessageEntry {
    OneofEntry(o.name, VariantTrees(o.variants))
  }

  /** The entries of a message: its fields, then its oneofs. */
  function MemberTrees(fs: seq<FieldDef>, os: seq<OneofDef>): seq<MessageEntry> {
    if fs == [] then OneofTrees(os) else [FieldEntry(fs[0])] + MemberTrees(fs[1..], os)
  }

  function OneofTrees(os: seq<OneofDef>): seq<MessageEntry> {
    if os == [] then [] else [OneofTree(os[0])] + OneofTrees(os[1..])
  }

  function EnumTree(e: EnumDef): TopEntry {
    EnumEntry(e.name, ValueTrees(e.values))
  }

  function MessageTree(m: MessageDef): TopEntry {
    MessageEntry(m.name, MemberTrees(m.fields, m.oneofs))
  }

  /** The declarations of a file: its enums, then its messages. */
  function DeclTrees(es: seq<EnumDef>, ms: seq<MessageDef>): seq<TopEntry> {
    if es == [] then MessageTrees(ms) else [EnumTree(es[0])] + DeclTrees(es[1..], ms)
  }

  function MessageTrees(ms: seq<MessageDef>): seq<TopEntry> {
    if ms == [] then [] else [MessageTree(ms[0])] + MessageTrees(ms[1..])
  }

  function FileTree(pf: ProtoFile): FileSyntax {
    FileSyntax(DeclTrees(pf.enums, pf.messages), [])
  }

  /** One token to a word, one declaration to a line. */
  function LayOut(ls: seq<Lex>): (ps: seq<Printed>)
    ensures |ps| == |ls|
  {
    seq(|ls|, k requires 0 <= k < |ls| =>
      Printed(if k == 0 then "" else if ls[k - 1].value in {";", "{", "}"} then "\n" else " ", ls[k].value, ls[k]))
  }

  function PrintFile(pf: ProtoFile): string
    requires PrintableFile(pf)
  {
    FileTreeMeaning(pf);
    var ls := FileTokens(FileTree(pf));
    Render(LayOut(ls[..|ls| - 1]), "\n")
  }

  // ---------------------------------------------------------------- the printed tree denotes the model

  lemma FieldTreeMeaning(f: FieldDef)
    requires PrintableField(f)
    ensures ValidField(FieldTree(f)) && FieldOf(FieldTree(f), f.repeated) == f
  {
    IntRoundTrip(f.number, -0x8000_0000, 0x7fff_ffff);
  }

  lemma {:induction false} ValueTreesMeaning(vs: seq<EnumValue>)
    requires forall v :: v in vs ==> IsIdent(v.name) && v.name !in SKIP_WORDS && IsInt32(v.number)
    ensures forall e :: e in ValueTrees(vs) ==> ValidEnumEntry(e)
    ensures ValuesOf(ValueTrees(vs)) == vs
  {
    if vs != [] {
      IntRoundTrip(vs[0].number, -0x8000_0000, 0x7fff_ffff);
      ValueTreesMeaning(vs[1..]);
      assert ValueTrees(vs)[1..] == ValueTrees(vs[1..]);
      assert ValidEnumEntry(ValueTrees(vs)[0]);
    }
  }

  lemma {:induction false} VariantTreesMeaning(vs: seq<FieldDef>)
    requires forall v :: v in vs ==> PrintableField(v) && !v.repeated && v.typ !in SKIP_WORDS
    ensures forall e :: e in VariantTrees(vs) ==> ValidOneofEntry(e)
    ensures VariantsOf(VariantTrees(vs)) == vs
  {
    if vs != [] {
      FieldTreeMeaning(vs[0]);
      VariantTreesMeaning(vs[1..]);
      assert VariantTrees(vs)[1..] == VariantTrees(vs[1..]);
      assert ValidOneofEntry(VariantTrees(vs)[0]);
    }
  }

  lemma FieldEntryMeaning(f: FieldDef)
    requires PrintableField(f) && (f.repeated || f.typ !in MESSAGE_WORDS)
    ensures ValidMessageEntry(FieldEntry(f)) && EntryMembers(FieldEntry(f)) == Members([f], [])
  {
    FieldTreeMeaning(f);
  }

  lemma {:induction false} OneofTreesMeaning(os: seq<OneofDef>)
    requires forall o :: o in os ==> PrintableOneof(o)
    ensures forall e :: e in OneofTrees(os) ==> ValidMessageEntry(e)
    ensures MembersOf(OneofTrees(os)) == Members([], os)
  {
    hide ValidMessageEntry, EntryMembers, OneofTree, PrintableOneof;
    if os != [] {
      OneofTreesMeaning(os[1..]);
      OneofTreeMeaning(os[0]);
      assert OneofTrees(os)[1..] == OneofTrees(os[1..]);
    }
  }

  lemma OneofTreeMeaning(o: OneofDef)
    requires PrintableOneof(o)
    ensures ValidMessageEntry(OneofTree(o)) && EntryMembers(OneofTree(o)) == Members([], [o])
  {
    VariantTreesMeaning(o.variants);
  }

  lemma {:induction false} MemberTreesMeaning(fs: seq<FieldDef>, os: seq<OneofDef>)
    requires forall f :: f in fs ==> PrintableField(f) && (f.repeated || f.typ !in MESSAGE_WORDS)
    requires forall o :: o in os ==> PrintableOneof(o)
    ensures forall e :: e in MemberTrees(fs, os) ==> ValidMessageEntry(e)
    ensures MembersOf(MemberTrees(fs, os)) == Members(fs, os)
  {
    hide ValidMessageEntry, EntryMembers, FieldEntry, PrintableField, PrintableOneof;
    if fs == [] {
      OneofTreesMeaning(os);
    } else {
      MemberTreesMeaning(fs[1..], os);
      FieldEntryMeaning(fs[0]);
      assert MemberTrees(fs, os)[1..] == MemberTrees(fs[1..], os);
      assert [] + os == os;
    }
  }

  lemma EnumTreeMeaning(e: EnumDef)
    requires PrintableEnum(e)
    ensures ValidTopEntry(EnumTree(e)) && EntryDecls(EnumTree(e)) == Decls([e], [])
  {
    ValueTreesMeaning(e.values);
  }

  lemma MessageTreeMeaning(m: MessageDef)
    requires PrintableMessage(m)
    ensures ValidTopEntry(MessageTree(m)) && EntryDecls(MessageTree(m)) == Decls([], [m])
  {
    MemberTreesMeaning(m.fields, m.oneofs);
  }

  lemma {:induction false} MessageTreesMeaning(ms: seq<MessageDef>)
    requires forall m :: m in ms ==> PrintableMessage(m)
    ensures forall t :: t in MessageTrees(ms) ==> ValidTopEntry(t)
    ensures DeclsOf(MessageTrees(ms)) == Decls([], ms)
  {
    hide ValidTopEntry, EntryDecls, MessageTree, PrintableMessage;
    if ms != [] {
      MessageTreesMeaning(ms[1..]);
      MessageTreeMeaning(ms[0]);
      assert MessageTrees(ms)[1..] == MessageTrees(ms[1..]);
    }
  }

  lemma {:induction false} DeclTreesMeaning(es: seq<EnumDef>, ms: seq<MessageDef>)
    requires (forall e :: e in es ==> PrintableEnum(e)) && (forall m :: m in ms ==> PrintableMessage(m))
    ensures forall t :: t in DeclTrees(es, ms) ==> ValidTopEntry(t)
    ensures DeclsOf(DeclTrees(es, ms)) == Decls(es, ms)
  {
    hide ValidTopEntry, EntryDecls, EnumTree, PrintableEnum, PrintableMessage;
    if es == [] {
      MessageTreesMeaning(ms);
    } else {
      DeclTreesMeaning(es[1..], ms);
      EnumTreeMeaning(es[0]);
      assert DeclTrees(es, ms)[1..] == DeclTrees(es[1..], ms);
      assert [] + ms == ms;
    }
  }

  lemma FileTreeMeaning(pf: ProtoFile)
    requires PrintableFile(pf)
    ensures ValidFile(FileTree(pf)) && FileOf(FileTree(pf)) == pf
  {
    DeclTreesMeaning(pf.enums, pf.messages);
  }

  // ---------------------------------------------------------------- the printed tokens lex

  predicate PrintsAsItself(l: Lex) {
    l.kind == EOF || IsTokenText(l.value, l)
  }

  predicate AllPrint(ls: seq<Lex>) {
    forall l :: l in ls ==> PrintsAsItself(l)
  }

  lemma IdentPrints(s: string)
    requires IsIdent(s)
    ensures PrintsAsItself(Word(s))
  {
    SpanIs(s, 0, |s|, IsIdentTail);
    assert s[0..|s|] == s;
  }

  lemma NumberPrints(n: int)
    ensures PrintsAsItself(Lex(Number, IntText(n)))
  {
    var s := IntText(n);
    assert forall k :: 1 <= k < |s| ==> IsDecimalDigit(s[k]);
    SpanIs(s, 1, |s|, IsNumberTail);
    assert s[0] == '-' || IsDecimalDigit(s[0]);
    assert s[0..|s|] == s;
  }

  lemma KeywordsPrint()
    ensures PrintsAsItself(Word("enum")) && PrintsAsItself(Word("message"))
    ensures PrintsAsItself(Word("oneof")) && PrintsAsItself(Word("repeated"))
  {
    hide PrintsAsItself;
    BlockKeywordsPrint();
    FieldKeywordsPrint();
  }

  lemma BlockKeywordsPrint()
    ensures PrintsAsItself(Word("enum")) && PrintsAsItself(Word("message"))
  {
    IdentPrints("enum");
    IdentPrints("message");
  }

  lemma FieldKeywordsPrint()
    ensures PrintsAsItself(Word("oneof")) && PrintsAsItself(Word("repeated"))
  {
    IdentPrints("oneof");
    IdentPrints("repeated");
  }

  lemma SignsPrint()
    ensures PrintsAsItself(Sign("=")) && PrintsAsItself(Sign(";"))
    ensures PrintsAsItself(Sign("{")) && PrintsAsItself(Sign("}"))
  {
  }

  lemma ConsPrints(l: Lex, k: seq<Lex>)
    requires PrintsAsItself(l) && AllPrint(k)
    ensures AllPrint([l] + k)
  {
  }

  lemma TailPrints(n: int, k: seq<Lex>)
    requires ValidTail(IntText(n), []) && Stream(k) && AllPrint(k)
    ensures AllPrint(TailTokens(IntText(n), [], k))
  {
    hide PrintsAsItself, AllPrint, ParseInt32, IntText;
    SignsPrint();
    NumberPrints(n);
    assert [] + ([Sign(";")] + k) == [Sign(";")] + k;
    ConsPrints(Sign(";"), k);
    ConsPrints(Lex(Number, IntText(n)), [Sign(";")] + k);
    ConsPrints(Sign("="), [Lex(Number, IntText(n))] + ([Sign(";")] + k));
  }

  lemma FieldPrints(f: FieldDef, k: seq<Lex>)
    requires PrintableField(f) && ValidField(FieldTree(f)) && Stream(k) && AllPrint(k)
    ensures AllPrint(FieldTokens(FieldTree(f), k))
  {
    hide PrintsAsItself, AllPrint, IsIdent, TailTokens;
    IdentPrints(f.typ);
    IdentPrints(f.name);
    TailPrints(f.number, k);
    var r := TailTokens(IntText(f.number), [], k);
    ConsPrints(Word(f.name), r);
    ConsPrints(Word(f.typ), [Word(f.name)] + r);
  }

  lemma {:induction false} ValuesPrint(vs: seq<EnumValue>, k: seq<Lex>)
    requires forall v :: v in vs ==> IsIdent(v.name) && v.name !in SKIP_WORDS && IsInt32(v.number)
    requires (forall e :: e in ValueTrees(vs) ==> ValidEnumEntry(e)) && Stream(k) && AllPrint(k)
    ensures AllPrint(EnumTokens(ValueTrees(vs), k))
  {
    assert PrintsAsItself(Sign("}"));
    if vs != [] {
      var ts := ValueTrees(vs);
      assert ts[1..] == ValueTrees(vs[1..]);
      ValuesPrint(vs[1..], k);
      IdentPrints(vs[0].name);
      assert ValidEnumEntry(ts[0]);
      TailPrints(vs[0].number, EnumTokens(ts[1..], k));
    }
  }

  lemma {:induction false} VariantsPrint(vs: seq<FieldDef>, k: seq<Lex>)
    requires forall v :: v in vs ==> PrintableField(v)
    requires (forall e :: e in VariantTrees(vs) ==> ValidOneofEntry(e)) && Stream(k) && AllPrint(k)
    ensures AllPrint(OneofTokens(VariantTrees(vs), k))
  {
    assert PrintsAsItself(Sign("}"));
    if vs != [] {
      var ts := VariantTrees(vs);
      assert ts[1..] == VariantTrees(vs[1..]);
      VariantsPrint(vs[1..], k);
      assert ValidOneofEntry(ts[0]);
      FieldPrints(vs[0], OneofTokens(ts[1..], k));
    }
  }

  lemma NamedPrints(name: string, body: seq<Lex>)
    requires IsIdent(name) && Stream(body) && AllPrint(body)
    ensures AllPrint(Named(name, body))
  {
    hide PrintsAsItself, AllPrint, IsIdent;
    IdentPrints(name);
    SignsPrint();
    ConsPrints(Sign("{"), body);
    ConsPrints(Word(name), [Sign("{")] + body);
  }

  lemma FieldEntryPrints(f: FieldDef, k: seq<Lex>)
    requires PrintableField(f) && ValidMessageEntry(FieldEntry(f)) && Stream(k) && AllPrint(k)
    ensures AllPrint(MessageEntryTokens(FieldEntry(f), k))
  {
    hide FieldTokens, FieldTree, PrintsAsItself, AllPrint, Stream, IsIdent, ValidField, PrintableField;
    KeywordsPrint();
    FieldPrints(f, k);
    ConsPrints(Word("repeated"), FieldTokens(FieldTree(f), k));
  }

  lemma OneofTreePrints(o: OneofDef, k: seq<Lex>)
    requires PrintableOneof(o) && ValidMessageEntry(OneofTree(o)) && Stream(k) && AllPrint(k)
    ensures AllPrint(MessageEntryTokens(OneofTree(o), k))
  {
    hide Named, OneofTokens, VariantTrees, ValidOneofEntry, PrintsAsItself, AllPrint, Stream, IsIdent;
    KeywordsPrint();
    VariantsPrint(o.variants, k);
    NamedPrints(o.name, OneofTokens(VariantTrees(o.variants), k));
    ConsPrints(Word("oneof"), Named(o.name, OneofTokens(VariantTrees(o.variants), k)));
  }

  lemma {:induction false} OneofTreesPrint(os: seq<OneofDef>, k: seq<Lex>)
    requires forall o :: o in os ==> PrintableOneof(o)
    requires (forall e :: e in OneofTrees(os) ==> ValidMessageEntry(e)) && Stream(k) && AllPrint(k)
    ensures AllPrint(MessageTokens(OneofTrees(os), k))
  {
    hide MessageEntryTokens, ValidMessageEntry, PrintableOneof, OneofTree, PrintsAsItself, AllPrint;
    if os == [] {
      SignsPrint();
      ConsPrints(Sign("}"), k);
    } else {
      assert OneofTrees(os)[1..] == OneofTrees(os[1..]) && OneofTrees(os)[0] == OneofTree(os[0]);
      OneofTreesPrint(os[1..], k);
      OneofTreePrints(os[0], MessageTokens(OneofTrees(os[1..]), k));
    }
  }

  lemma {:induction false} MembersPrint(fs: seq<FieldDef>, os: seq<OneofDef>, k: seq<Lex>)
    requires (forall f :: f in fs ==> PrintableField(f)) && (forall o :: o in os ==> PrintableOneof(o))
    requires (forall e :: e in MemberTrees(fs, os) ==> ValidMessageEntry(e)) && Stream(k) && AllPrint(k)
    ensures AllPrint(MessageTokens(MemberTrees(fs, os), k))
  {
    hide MessageEntryTokens, ValidMessageEntry, PrintableField, PrintableOneof, FieldEntry, PrintsAsItself, AllPrint;
    if fs == [] {
      OneofTreesPrint(os, k);
    } else {
      var ts := MemberTrees(fs, os);
      assert ts[1..] == MemberTrees(fs[1..], os) && ts[0] == FieldEntry(fs[0]);
      MembersPrint(fs[1..], os, k);
      FieldEntryPrints(fs[0], MessageTokens(ts[1..], k));
    }
  }

  lemma EnumTreePrints(e: EnumDef, k: seq<Lex>)
    requires PrintableEnum(e) && ValidTopEntry(EnumTree(e)) && Stream(k) && AllPrint(k)
    ensures AllPrint(TopEntryTokens(EnumTree(e), k))
  {
    hide Named, EnumTokens, ValueTrees, ValidEnumEntry, PrintsAsItself, AllPrint, Stream, IsIdent;
    KeywordsPrint();
    ValuesPrint(e.values, k);
    NamedPrints(e.name, EnumTokens(ValueTrees(e.values), k));
    ConsPrints(Word("enum"), Named(e.name, EnumTokens(ValueTrees(e.values), k)));
  }

  lemma MessageTreePrints(m: MessageDef, k: seq<Lex>)
    requires PrintableMessage(m) && ValidTopEntry(MessageTree(m)) && Stream(k) && AllPrint(k)
    ensures AllPrint(TopEntryTokens(MessageTree(m), k))
  {
    hide Named, MessageTokens, MemberTrees, ValidMessageEntry, PrintsAsItself, AllPrint, Stream, IsIdent;
    KeywordsPrint();
    MembersPrint(m.fields, m.oneofs, k);
    NamedPrints(m.name, MessageTokens(MemberTrees(m.fields, m.oneofs), k));
    ConsPrints(Word("message"), Named(m.name, MessageTokens(MemberTrees(m.fields, m.oneofs), k)));
  }

  lemma {:induction false} MessageTreesPrint(ms: seq<MessageDef>, k: seq<Lex>)
    requires forall m :: m in ms ==> PrintableMessage(m)
    requires (forall t :: t in MessageTrees(ms) ==> ValidTopEntry(t)) && Stream(k) && AllPrint(k)
    ensures AllPrint(TopTokens(MessageTrees(ms), k))
  {
    hide TopEntryTokens, ValidTopEntry, PrintableMessage, MessageTree, AllPrint;
    if ms != [] {
      assert MessageTrees(ms)[1..] == MessageTrees(ms[1..]) && MessageTrees(ms)[0] == MessageTree(ms[0]);
      MessageTreesPrint(ms[1..], k);
      MessageTreePrints(ms[0], TopTokens(MessageTrees(ms[1..]), k));
    }
  }

  lemma {:induction false} DeclsPrint(es: seq<EnumDef>, ms: seq<MessageDef>, k: seq<Lex>)
    requires (forall e :: e in es ==> PrintableEnum(e)) && (forall m :: m in ms ==> PrintableMessage(m))
    requires (forall t :: t in DeclTrees(es, ms) ==> ValidTopEntry(t)) && Stream(k) && AllPrint(k)
    ensures AllPrint(TopTokens(DeclTrees(es, ms), k))
  {
    hide TopEntryTokens, ValidTopEntry, PrintableEnum, PrintableMessage, EnumTree, AllPrint;
    if es == [] {
      MessageTreesPrint(ms, k);
    } else {
      var ts := DeclTrees(es, ms);
      assert ts[1..] == DeclTrees(es[1..], ms) && ts[0] == EnumTree(es[0]);
      DeclsPrint(es[1..], ms, k);
      EnumTreePrints(es[0], TopTokens(ts[1..], k));
    }
  }

  lemma LayOutSpaced(ls: seq<Lex>)
    requires forall l :: l in ls ==> IsTokenText(l.value, l)
    ensures WellSpaced(LayOut(ls), "\n") && PrintedLexes(LayOut(ls)) == ls
  {
    var ps := LayOut(ls);
    assert Filler("") && FillerFrom("\n", 1) && FillerFrom(" ", 1);
    forall k | 0 <= k < |ps|
      ensures Filler(ps[k].gap) && IsTokenText(ps[k].text, ps[k].lex)
    {
      assert ls[k] in ls;
    }
  }

  /** Printing a model and reading the text gives exactly the model back. */
  lemma PrintRoundTrip(pf: ProtoFile)
    requires PrintableFile(pf)
    ensures ReadProto(PrintFile(pf)) == Ok(pf)
  {
    hide TopTokens, WellSpaced, DeclTrees, Render, ReadProto, PrintedLexes, LayOut, IsTokenText, ValidTopEntry;
    FileTreeMeaning(pf);
    var ls := FileTokens(FileTree(pf));
    TreePrints(pf);
    StreamParts(ls);
    var front := ls[..|ls| - 1];
    assert forall l :: l in front ==> l in ls;
    LayOutSpaced(front);
    assert front + [EOF_LEX] == ls;
    AnyLayoutReads(FileTree(pf), LayOut(front), "\n");
  }

  lemma TreePrints(pf: ProtoFile)
    requires PrintableFile(pf) && ValidFile(FileTree(pf))
    ensures AllPrint(FileTokens(FileTree(pf)))
  {
    assert [] + [EOF_LEX] == [EOF_LEX];
    DeclsPrint(pf.enums, pf.messages, [EOF_LEX]);
  }
}
