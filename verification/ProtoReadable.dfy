/**
 Which models can be read from a text at all: exactly those that can be written down.
*/
module ProtoReadable {
  import opened Wrappers
  import opened ProtoLexer
  import opened ProtoLexerTheory
  import opened ProtoParser
  import opened ProtoSkips
  import opened ProtoGrammar
  import opened ProtoAccepts
  import opened ProtoRoundTrip
  import Tokens = ProtoTokens

  // ---------------------------------------------------------------- identifiers of a text

  /** The identifiers a model may hold are the names a text may hold. */
  lemma IdentIff(s: string)
    ensures IsIdent(s) <==> Tokens.Valid(Tokens.Name(s))
  {
    hide IsLetter, Tokens.Letter;
    forall c: char
      ensures IsIdentTail(c) <==> Tokens.WordTail(c)
      ensures IsIdentStart(c) <==> Tokens.Letter(c) || c == '_'
    {
      Tokens.Classes(c);
    }
  }

  predicate IdentsGood(ls: seq<Lex>) {
    forall l :: l in ls && l.kind == Ident ==> IsIdent(l.value)
  }

  lemma StepGood(s: string, i: nat)
    requires i < |s| && StepAt(s, i).Emit?
    ensures IdentsGood([StepAt(s, i).lex])
  {
    hide IsLetter;
    var st := StepAt(s, i);
    if st.lex.kind == Ident {
      var n := SpanEnd(s, i, IsIdentTail);
      assert st.lex.value == s[i..n] && IsIdentTail(s[i]);
      assert forall k :: 0 <= k < |s[i..n]| ==> s[i..n][k] == s[i + k];
    }
  }

  lemma {:induction false} LexesGood(s: string, i: nat)
    requires i <= |s| && LexAt(s, i).Ok?
    ensures IdentsGood(LexesOf(LexAt(s, i).value))
    decreases |s| - i
  {
    hide StepAt, IsIdent;
    if i < |s| {
      var st := StepAt(s, i);
      LexesGood(s, st.next);
      if st.Emit? {
        StepGood(s, i);
        assert LexesOf(LexAt(s, i).value) == [st.lex] + LexesOf(LexAt(s, st.next).value);
      }
    }
  }

  lemma Parts(a: seq<Lex>, b: seq<Lex>)
    requires IdentsGood(a + b)
    ensures IdentsGood(a) && IdentsGood(b)
  {
    hide IsIdent;
    assert forall l :: l in a || l in b ==> l in a + b;
  }

  lemma WordGood(name: string, k: seq<Lex>)
    requires IdentsGood([Word(name)] + k)
    ensures IsIdent(name) && IdentsGood(k)
  {
    hide IsIdent;
    Parts([Word(name)], k);
    assert Word(name) in [Word(name)];
  }

  // ---------------------------------------------------------------- trees of a text

  predicate PrintableMembers(m: Members) {
    && (forall f :: f in m.fields ==> PrintableField(f) && (f.repeated || f.typ !in MESSAGE_WORDS))
    && forall o :: o in m.oneofs ==> PrintableOneof(o)
  }

  predicate PrintableDecls(d: Decls) {
    (forall e :: e in d.enums ==> PrintableEnum(e)) && forall m :: m in d.messages ==> PrintableMessage(m)
  }

  lemma NoMembers()
    ensures PrintableMembers(Members([], []))
  {
  }

  lemma OneField(f: FieldDef)
    requires PrintableField(f) && (f.repeated || f.typ !in MESSAGE_WORDS)
    ensures PrintableMembers(Members([f], []))
  {
    hide PrintableField;
  }

  lemma OneOneof(o: OneofDef)
    requires PrintableOneof(o)
    ensures PrintableMembers(Members([], [o]))
  {
    hide PrintableOneof;
  }

  lemma OneEnum(e: EnumDef)
    requires PrintableEnum(e)
    ensures PrintableDecls(Decls([e], []))
  {
    hide PrintableEnum;
  }

  lemma OneMessage(m: MessageDef)
    requires PrintableMessage(m)
    ensures PrintableDecls(Decls([], [m]))
  {
    hide PrintableMessage;
  }

  lemma TailGood(digits: string, opts: seq<Lex>, k: seq<Lex>)
    requires ValidTail(digits, opts) && Stream(k) && IdentsGood(TailTokens(digits, opts, k))
    ensures IdentsGood(k) && IsInt32(NumberOf(digits))
  {
    hide IdentsGood;
    var rest := opts + ([Sign(";")] + k);
    Parts([Sign("=")], [Lex(Number, digits)] + rest);
    Parts([Lex(Number, digits)], rest);
    Parts(opts, [Sign(";")] + k);
    Parts([Sign(";")], k);
  }

  lemma FieldGood(f: FieldSyntax, repeated: bool, k: seq<Lex>)
    requires ValidField(f) && Stream(k) && IdentsGood(FieldTokens(f, k))
    ensures PrintableField(FieldOf(f, repeated)) && IdentsGood(k)
  {
    hide IdentsGood, IsIdent, TailTokens;
    var tail := TailTokens(f.digits, f.opts, k);
    WordGood(f.typ, [Word(f.name)] + tail);
    WordGood(f.name, tail);
    TailGood(f.digits, f.opts, k);
  }

  lemma {:induction false} ValuesGood(name: string, es: seq<EnumEntry>, k: seq<Lex>)
    requires IsIdent(name) && (forall e :: e in es ==> ValidEnumEntry(e)) && Stream(k)
    requires IdentsGood(EnumTokens(es, k))
    ensures PrintableEnum(EnumDef(name, ValuesOf(es))) && IdentsGood(k)
    decreases es
  {
    hide IdentsGood, IsIdent, TailTokens, ValidTail;
    if es == [] {
      Parts([Sign("}")], k);
    } else {
      var rest := EnumTokens(es[1..], k);
      match es[0] {
        case EnumSkip(stmt) => Parts(stmt, rest);
        case EnumVal(v, digits, opts) =>
          assert ValidEnumEntry(es[0]);
          WordGood(v, TailTokens(digits, opts, rest));
          TailGood(digits, opts, rest);
      }
      ValuesGood(name, es[1..], k);
    }
  }

  lemma {:induction false} VariantsGood(name: string, es: seq<OneofEntry>, k: seq<Lex>)
    requires IsIdent(name) && (forall e :: e in es ==> ValidOneofEntry(e)) && Stream(k)
    requires IdentsGood(OneofTokens(es, k))
    ensures PrintableOneof(OneofDef(name, VariantsOf(es))) && IdentsGood(k)
    decreases es
  {
    hide IdentsGood, IsIdent, FieldTokens, ValidField, PrintableField;
    if es == [] {
      Parts([Sign("}")], k);
    } else {
      var rest := OneofTokens(es[1..], k);
      match es[0] {
        case OneofSkip(stmt) => Parts(stmt, rest);
        case Variant(f) =>
          assert ValidOneofEntry(es[0]);
          FieldGood(f, false, rest);
      }
      VariantsGood(name, es[1..], k);
    }
  }

  lemma NamedGood(name: string, body: seq<Lex>)
    requires Stream(body) && IdentsGood(Named(name, body))
    ensures IsIdent(name) && IdentsGood(body)
  {
    hide IdentsGood, IsIdent;
    WordGood(name, [Sign("{")] + body);
    Parts([Sign("{")], body);
  }

  /** Behind a keyword. */
  lemma KeywordGood(ls: seq<Lex>, name: string, body: seq<Lex>)
    requires Stream(body) && ls != [] && ls[1..] == Named(name, body) && IdentsGood(ls)
    ensures IsIdent(name) && IdentsGood(body)
  {
    hide IdentsGood, IsIdent, Named;
    assert ls == [ls[0]] + ls[1..];
    Parts([ls[0]], ls[1..]);
    NamedGood(name, body);
  }

  lemma NestedRest(e: MessageEntry, k: seq<Lex>)
    requires e.Nested? && ValidMessageEntry(e) && Stream(k)
    ensures Stream(e.body + k) && MessageEntryTokens(e, k) != []
    ensures MessageEntryTokens(e, k)[1..] == Named(e.name, e.body + k)
  {
    hide Named;
    StreamAppend(e.body, k);
  }

  lemma NestedGood(e: MessageEntry, k: seq<Lex>)
    requires e.Nested? && ValidMessageEntry(e) && Stream(k) && IdentsGood(MessageEntryTokens(e, k))
    ensures PrintableMembers(EntryMembers(e)) && IdentsGood(k)
  {
    hide IdentsGood, IsIdent, Named, PrintableMembers, Stream, MessageEntryTokens, ValidMessageEntry;
    NoMembers();
    NestedRest(e, k);
    KeywordGood(MessageEntryTokens(e, k), e.name, e.body + k);
    Parts(e.body, k);
  }

  lemma OneofRest(e: MessageEntry, k: seq<Lex>)
    requires e.OneofEntry? && ValidMessageEntry(e) && Stream(k)
    ensures forall o :: o in e.entries ==> ValidOneofEntry(o)
    ensures MessageEntryTokens(e, k) != [] && MessageEntryTokens(e, k)[1..] == Named(e.name, OneofTokens(e.entries, k))
  {
    hide Named, OneofTokens, ValidOneofEntry;
  }

  lemma OneofGood(e: MessageEntry, k: seq<Lex>)
    requires e.OneofEntry? && ValidMessageEntry(e) && Stream(k) && IdentsGood(MessageEntryTokens(e, k))
    ensures PrintableMembers(EntryMembers(e)) && IdentsGood(k)
  {
    hide IdentsGood, IsIdent, Named, OneofTokens, VariantsOf, PrintableOneof, PrintableMembers, Stream,
      ValidOneofEntry, MessageEntryTokens, ValidMessageEntry;
    OneofRest(e, k);
    KeywordGood(MessageEntryTokens(e, k), e.name, OneofTokens(e.entries, k));
    VariantsGood(e.name, e.entries, k);
    OneOneof(OneofDef(e.name, VariantsOf(e.entries)));
  }

  lemma IsRepeated(f: FieldSyntax)
    ensures FieldOf(f, true).repeated
  {
  }

  lemma RepeatedGood(e: MessageEntry, k: seq<Lex>)
    requires e.Repeated? && ValidMessageEntry(e) && Stream(k) && IdentsGood(MessageEntryTokens(e, k))
    ensures PrintableMembers(EntryMembers(e)) && IdentsGood(k)
  {
    hide IdentsGood, FieldTokens, FieldOf, PrintableField, PrintableMembers;
    Parts([Word("repeated")], FieldTokens(e.field, k));
    FieldGood(e.field, true, k);
    IsRepeated(e.field);
    OneField(FieldOf(e.field, true));
  }

  lemma PlainGood(e: MessageEntry, k: seq<Lex>)
    requires e.Plain? && ValidMessageEntry(e) && Stream(k) && IdentsGood(MessageEntryTokens(e, k))
    ensures PrintableMembers(EntryMembers(e)) && IdentsGood(k)
  {
    hide IdentsGood, FieldTokens, PrintableField, PrintableMembers, IsIdent, Stream, ValidField;
    FieldGood(e.field, false, k);
    OneField(FieldOf(e.field, false));
  }

  lemma MemberSkipGood(e: MessageEntry, k: seq<Lex>)
    requires e.MessageSkip? && ValidMessageEntry(e) && Stream(k) && IdentsGood(MessageEntryTokens(e, k))
    ensures PrintableMembers(EntryMembers(e)) && IdentsGood(k)
  {
    hide IdentsGood, IsIdent;
    Parts(e.stmt, k);
  }

  lemma MemberGood(e: MessageEntry, k: seq<Lex>)
    requires ValidMessageEntry(e) && Stream(k) && IdentsGood(MessageEntryTokens(e, k))
    ensures PrintableMembers(EntryMembers(e)) && IdentsGood(k)
  {
    hide PrintableMembers, EntryMembers, MessageEntryTokens, ValidMessageEntry, IdentsGood, Stream;
    match e
    case MessageSkip(_) => MemberSkipGood(e, k);
    case Nested(_, _, _) => NestedGood(e, k);
    case OneofEntry(_, _) => OneofGood(e, k);
    case Repeated(_) => RepeatedGood(e, k);
    case Plain(_) => PlainGood(e, k);
  }

  lemma {:induction false} MembersGood(name: string, es: seq<MessageEntry>, k: seq<Lex>)
    requires IsIdent(name) && (forall e :: e in es ==> ValidMessageEntry(e)) && Stream(k)
    requires IdentsGood(MessageTokens(es, k))
    ensures PrintableMessage(MessageOf(name, es)) && IdentsGood(k)
    decreases es
  {
    hide IdentsGood, IsIdent, MessageEntryTokens, ValidMessageEntry, EntryMembers, PrintableField, PrintableOneof;
    if es == [] {
      Parts([Sign("}")], k);
    } else {
      assert es[0] in es;
      MemberGood(es[0], MessageTokens(es[1..], k));
      MembersGood(name, es[1..], k);
    }
  }

  lemma EnumRest(e: TopEntry, k: seq<Lex>)
    requires e.EnumEntry? && ValidTopEntry(e) && Stream(k)
    ensures forall v :: v in e.values ==> ValidEnumEntry(v)
    ensures TopEntryTokens(e, k) != [] && TopEntryTokens(e, k)[1..] == Named(e.name, EnumTokens(e.values, k))
  {
    hide Named, EnumTokens, ValidEnumEntry;
  }

  lemma MessageRest(e: TopEntry, k: seq<Lex>)
    requires e.MessageEntry? && ValidTopEntry(e) && Stream(k)
    ensures forall m :: m in e.members ==> ValidMessageEntry(m)
    ensures TopEntryTokens(e, k) != [] && TopEntryTokens(e, k)[1..] == Named(e.name, MessageTokens(e.members, k))
  {
    hide Named, MessageTokens, ValidMessageEntry;
  }

  lemma EnumGood(e: TopEntry, k: seq<Lex>)
    requires e.EnumEntry? && ValidTopEntry(e) && Stream(k) && IdentsGood(TopEntryTokens(e, k))
    ensures PrintableDecls(EntryDecls(e)) && IdentsGood(k)
  {
    hide IdentsGood, IsIdent, Named, EnumTokens, ValuesOf, PrintableEnum, PrintableDecls, Stream, ValidEnumEntry,
      TopEntryTokens, ValidTopEntry;
    EnumRest(e, k);
    KeywordGood(TopEntryTokens(e, k), e.name, EnumTokens(e.values, k));
    ValuesGood(e.name, e.values, k);
    OneEnum(EnumDef(e.name, ValuesOf(e.values)));
  }

  lemma MessageGood(e: TopEntry, k: seq<Lex>)
    requires e.MessageEntry? && ValidTopEntry(e) && Stream(k) && IdentsGood(TopEntryTokens(e, k))
    ensures PrintableDecls(EntryDecls(e)) && IdentsGood(k)
  {
    hide IdentsGood, IsIdent, Named, MessageTokens, MessageOf, PrintableMessage, PrintableDecls, Stream,
      ValidMessageEntry, TopEntryTokens, ValidTopEntry;
    MessageRest(e, k);
    KeywordGood(TopEntryTokens(e, k), e.name, MessageTokens(e.members, k));
    MembersGood(e.name, e.members, k);
    OneMessage(MessageOf(e.name, e.members));
  }

  lemma TopSkipGood(e: TopEntry, k: seq<Lex>)
    requires e.TopSkip? && ValidTopEntry(e) && Stream(k) && IdentsGood(TopEntryTokens(e, k))
    ensures PrintableDecls(EntryDecls(e)) && IdentsGood(k)
  {
    hide IdentsGood, IsIdent;
    Parts(e.stmt, k);
  }

  lemma DeclGood(e: TopEntry, k: seq<Lex>)
    requires ValidTopEntry(e) && Stream(k) && IdentsGood(TopEntryTokens(e, k))
    ensures PrintableDecls(EntryDecls(e)) && IdentsGood(k)
  {
    hide PrintableDecls, EntryDecls, TopEntryTokens, ValidTopEntry, IdentsGood, Stream;
    match e
    case TopSkip(_) => TopSkipGood(e, k);
    case EnumEntry(_, _) => EnumGood(e, k);
    case MessageEntry(_, _) => MessageGood(e, k);
  }

  lemma {:induction false} DeclsGood(es: seq<TopEntry>, k: seq<Lex>)
    requires (forall e :: e in es ==> ValidTopEntry(e)) && Stream(k)
    requires IdentsGood(TopTokens(es, k))
    ensures PrintableDecls(DeclsOf(es))
    decreases es
  {
    hide IdentsGood, TopEntryTokens, ValidTopEntry, EntryDecls, PrintableEnum, PrintableMessage;
    if es != [] {
      assert es[0] in es;
      DeclGood(es[0], TopTokens(es[1..], k));
      DeclsGood(es[1..], k);
    }
  }

  // ---------------------------------------------------------------- the texts

  lemma ReadIsPrintable(src: string)
    requires ReadProto(src).Ok?
    ensures PrintableFile(ReadProto(src).value)
  {
    hide IdentsGood, IsIdent, ReadProto, PrintableEnum, PrintableMessage, ParseFile, TopTokens;
    var m := ReadProto(src).value;
    var ls := Lexes(src).value + [EOF_LEX];
    AcceptsExactlyTheGrammar(ls, m);
    var f :| ValidFile(f) && FileTokens(f) == ls && FileOf(f) == m;
    LexesGood(src, 0);
    EofGood(Lexes(src).value);
    StreamAppend(f.cut, [EOF_LEX]);
    DeclsGood(f.entries, f.cut + [EOF_LEX]);
  }

  lemma EofGood(ls: seq<Lex>)
    requires IdentsGood(ls)
    ensures IdentsGood(ls + [EOF_LEX])
  {
  }

  /** A model is read from some text if and only if it is printable: every condition the
      printer asks for is one that reading guarantees. */
  lemma ReadableIff(m: ProtoFile)
    ensures (exists src :: ReadProto(src) == Ok(m)) <==> PrintableFile(m)
  {
    hide ReadProto, PrintableFile;
    if src :| ReadProto(src) == Ok(m) {
      ReadIsPrintable(src);
    }
    if PrintableFile(m) {
      PrintRoundTrip(m);
    }
  }
}
