/**
 The language the parser of cmd/protogen-tesla/parser.go accepts, as concrete
 syntax trees with a meaning, and the proof that the parser reads every tree as
 what it means. Trees are written out in front of a continuation:
 `EnumTokens(entries, k)` is the body followed by `k`.
*/
module ProtoGrammar {
  import opened Strconv
  import opened ProtoLexer
  import opened ProtoParser
  import opened ProtoSkips

  // ---------------------------------------------------------------- syntax trees

  /** `typ name = digits opts ;` */
  datatype FieldSyntax = FieldSyntax(typ: string, name: string, digits: string, opts: seq<Lex>)

  datatype EnumEntry =
    | EnumSkip(stmt: seq<Lex>)
    | EnumVal(name: string, digits: string, opts: seq<Lex>)

  datatype OneofEntry =
    | OneofSkip(stmt: seq<Lex>)
    | Variant(field: FieldSyntax)

  datatype MessageEntry =
    | MessageSkip(stmt: seq<Lex>)
    | Nested(word: string, name: string, body: seq<Lex>)
    | OneofEntry(name: string, entries: seq<OneofEntry>)
    | Repeated(field: FieldSyntax)
    | Plain(field: FieldSyntax)

  datatype TopEntry =
    | TopSkip(stmt: seq<Lex>)
    | EnumEntry(name: string, values: seq<EnumEntry>)
    | MessageEntry(name: string, members: seq<MessageEntry>)

  /** A file; `cut` is a last skipped statement the text breaks off, if any. */
  datatype FileSyntax = FileSyntax(entries: seq<TopEntry>, cut: seq<Lex>)

  predicate SkippedBy(stmt: seq<Lex>, words: set<string>) {
    Statement(stmt, 0) && IsWord(stmt[0], words)
  }

  predicate ValidTail(digits: string, opts: seq<Lex>) {
    ParseInt32(digits).Some? && (opts == [] || BracketGroup(opts))
  }

  predicate ValidField(f: FieldSyntax) {
    ValidTail(f.digits, f.opts)
  }

  predicate ValidEnumEntry(e: EnumEntry) {
    match e
    case EnumSkip(stmt) => SkippedBy(stmt, SKIP_WORDS)
    case EnumVal(name, digits, opts) => name !in SKIP_WORDS && ValidTail(digits, opts)
  }

  predicate ValidOneofEntry(e: OneofEntry) {
    match e
    case OneofSkip(stmt) => SkippedBy(stmt, SKIP_WORDS)
    case Variant(f) => f.typ !in SKIP_WORDS && ValidField(f)
  }

  predicate ValidMessageEntry(e: MessageEntry) {
    match e
    case MessageSkip(stmt) => SkippedBy(stmt, SKIP_WORDS)
    case Nested(word, _, body) => word in {"message", "enum"} && Group(body, 1, CurlyOnly)
    case OneofEntry(_, entries) => forall o :: o in entries ==> ValidOneofEntry(o)
    case Repeated(f) => ValidField(f)
    case Plain(f) => f.typ !in MESSAGE_WORDS && ValidField(f)
  }

  predicate ValidTopEntry(e: TopEntry) {
    match e
    case TopSkip(stmt) => SkippedBy(stmt, TOP_SKIP_WORDS)
    case EnumEntry(_, values) => forall v :: v in values ==> ValidEnumEntry(v)
    case MessageEntry(_, members) => forall m :: m in members ==> ValidMessageEntry(m)
  }

  predicate ValidFile(f: FileSyntax) {
    && (forall e :: e in f.entries ==> ValidTopEntry(e))
    && NoEof(f.cut)
    && (f.cut != [] ==> IsWord(f.cut[0], TOP_SKIP_WORDS) && forall n :: 0 < n <= |f.cut| ==> !Statement(f.cut[..n], 0))
  }

  // ---------------------------------------------------------------- tokens of a tree

  function Word(s: string): Lex { Lex(Ident, s) }
  function Sign(s: string): Lex { Lex(Punct, s) }

  /** The words that begin a skipped statement in a body and in a file, and those a
      message body takes for something else than a type. */
  lemma WordsSpelled(l: Lex)
    ensures IsWord(l, SKIP_WORDS) <==> l == Word("option") || l == Word("reserved")
    ensures IsWord(l, TOP_SKIP_WORDS) <==>
            l == Word("syntax") || l == Word("package") || l == Word("import") || l == Word("option")
    ensures IsWord(l, MESSAGE_WORDS) <==>
            || l == Word("option") || l == Word("reserved") || l == Word("oneof")
            || l == Word("message") || l == Word("enum") || l == Word("repeated")
  {
  }

  function TailTokens(digits: string, opts: seq<Lex>, k: seq<Lex>): (ls: seq<Lex>)
    requires ValidTail(digits, opts) && Stream(k)
    ensures Stream(ls)
  {
    OptionsStream(opts, [Sign(";")] + k);
    [Sign("=")] + ([Lex(Number, digits)] + (opts + ([Sign(";")] + k)))
  }

  lemma OptionsStream(opts: seq<Lex>, k: seq<Lex>)
    requires (opts == [] || BracketGroup(opts)) && Stream(k)
    ensures Stream(opts + k)
  {
    assert opts != [] ==> opts == [opts[0]] + opts[1..];
    StreamAppend(opts, k);
  }

  function FieldTokens(f: FieldSyntax, k: seq<Lex>): (ls: seq<Lex>)
    requires ValidField(f) && Stream(k)
    ensures Stream(ls) && ls[0] == Word(f.typ)
  {
    [Word(f.typ)] + ([Word(f.name)] + TailTokens(f.digits, f.opts, k))
  }

  function EnumEntryTokens(e: EnumEntry, k: seq<Lex>): (ls: seq<Lex>)
    requires ValidEnumEntry(e) && Stream(k)
    ensures Stream(ls) && ls[0].kind == Ident
  {
    match e
    case EnumSkip(stmt) => StreamAppend(stmt, k); stmt + k
    case EnumVal(name, digits, opts) => [Word(name)] + TailTokens(digits, opts, k)
  }

  function EnumTokens(es: seq<EnumEntry>, k: seq<Lex>): (ls: seq<Lex>)
    requires (forall e :: e in es ==> ValidEnumEntry(e)) && Stream(k)
    ensures Stream(ls)
  {
    if es == [] then [Sign("}")] + k else EnumEntryTokens(es[0], EnumTokens(es[1..], k))
  }

  function OneofEntryTokens(e: OneofEntry, k: seq<Lex>): (ls: seq<Lex>)
    requires ValidOneofEntry(e) && Stream(k)
    ensures Stream(ls) && ls[0].kind == Ident
  {
    match e
    case OneofSkip(stmt) => StreamAppend(stmt, k); stmt + k
    case Variant(f) => FieldTokens(f, k)
  }

  function OneofTokens(es: seq<OneofEntry>, k: seq<Lex>): (ls: seq<Lex>)
    requires (forall e :: e in es ==> ValidOneofEntry(e)) && Stream(k)
    ensures Stream(ls)
  {
    if es == [] then [Sign("}")] + k else OneofEntryTokens(es[0], OneofTokens(es[1..], k))
  }

  /** A name, an opening brace, and the body. */
  function Named(name: string, body: seq<Lex>): (ls: seq<Lex>)
    requires Stream(body)
    ensures Stream(ls)
  {
    [Word(name)] + ([Sign("{")] + body)
  }

  function NestedTokens(name: string, body: seq<Lex>, k: seq<Lex>): (ls: seq<Lex>)
    requires NoEof(body) && Stream(k)
    ensures Stream(ls)
  {
    StreamAppend(body, k);
    Named(name, body + k)
  }

  function MessageEntryTokens(e: MessageEntry, k: seq<Lex>): (ls: seq<Lex>)
    requires ValidMessageEntry(e) && Stream(k)
    ensures Stream(ls) && ls[0].kind == Ident
  {
    match e
    case MessageSkip(stmt) => StreamAppend(stmt, k); stmt + k
    case Nested(word, name, body) => [Word(word)] + NestedTokens(name, body, k)
    case OneofEntry(name, entries) => [Word("oneof")] + Named(name, OneofTokens(entries, k))
    case Repeated(f) => [Word("repeated")] + FieldTokens(f, k)
    case Plain(f) => FieldTokens(f, k)
  }

  function MessageTokens(es: seq<MessageEntry>, k: seq<Lex>): (ls: seq<Lex>)
    requires (forall e :: e in es ==> ValidMessageEntry(e)) && Stream(k)
    ensures Stream(ls)
  {
    if es == [] then [Sign("}")] + k else MessageEntryTokens(es[0], MessageTokens(es[1..], k))
  }

  function TopEntryTokens(e: TopEntry, k: seq<Lex>): (ls: seq<Lex>)
    requires ValidTopEntry(e) && Stream(k)
    ensures Stream(ls) && ls[0].kind == Ident
  {
    match e
    case TopSkip(stmt) => StreamAppend(stmt, k); stmt + k
    case EnumEntry(name, values) => [Word("enum")] + Named(name, EnumTokens(values, k))
    case MessageEntry(name, members) => [Word("message")] + Named(name, MessageTokens(members, k))
  }

  function TopTokens(es: seq<TopEntry>, k: seq<Lex>): (ls: seq<Lex>)
    requires (forall e :: e in es ==> ValidTopEntry(e)) && Stream(k)
    ensures Stream(ls)
  {
    if es == [] then k else TopEntryTokens(es[0], TopTokens(es[1..], k))
  }

  function FileTokens(f: FileSyntax): (ls: seq<Lex>)
    requires ValidFile(f)
    ensures Stream(ls)
  {
    StreamAppend(f.cut, [EOF_LEX]);
    TopTokens(f.entries, f.cut + [EOF_LEX])
  }

  // ---------------------------------------------------------------- meaning of a tree

  function NumberOf(digits: string): int {
    match ParseInt32(digits) case Some(n) => n case None => 0
  }

  function FieldOf(f: FieldSyntax, repeated: bool): FieldDef {
    FieldDef(f.name, f.typ, NumberOf(f.digits), repeated)
  }

  function EntryValues(e: EnumEntry): seq<EnumValue> {
    match e
    case EnumSkip(_) => []
    case EnumVal(name, digits, _) => [EnumValue(name, NumberOf(digits))]
  }

  function ValuesOf(es: seq<EnumEntry>): seq<EnumValue> {
    if es == [] then [] else EntryValues(es[0]) + ValuesOf(es[1..])
  }

  function EntryVariants(e: OneofEntry): seq<FieldDef> {
    match e
    case OneofSkip(_) => []
    case Variant(f) => [FieldOf(f, false)]
  }

  function VariantsOf(es: seq<OneofEntry>): seq<FieldDef> {
    if es == [] then [] else EntryVariants(es[0]) + VariantsOf(es[1..])
  }

  function EntryMembers(e: MessageEntry): Members {
    match e
    case MessageSkip(_) => Members([], [])
    case Nested(_, _, _) => Members([], [])
    case OneofEntry(name, entries) => Members([], [OneofDef(name, VariantsOf(entries))])
    case Repeated(f) => Members([FieldOf(f, true)], [])
    case Plain(f) => Members([FieldOf(f, false)], [])
  }

  function MembersOf(es: seq<MessageEntry>): Members {
    if es == [] then Members([], [])
    else
      var m, r := EntryMembers(es[0]), MembersOf(es[1..]);
      Members(m.fields + r.fields, m.oneofs + r.oneofs)
  }

  function MessageOf(name: string, es: seq<MessageEntry>): MessageDef {
    MessageDef(name, MembersOf(es).fields, MembersOf(es).oneofs)
  }

  function EntryDecls(e: TopEntry): Decls {
    match e
    case TopSkip(_) => Decls([], [])
    case EnumEntry(name, values) => Decls([EnumDef(name, ValuesOf(values))], [])
    case MessageEntry(name, members) => Decls([], [MessageOf(name, members)])
  }

  function DeclsOf(es: seq<TopEntry>): Decls {
    if es == [] then Decls([], [])
    else
      var d, r := EntryDecls(es[0]), DeclsOf(es[1..]);
      Decls(d.enums + r.enums, d.messages + r.messages)
  }

  /** The model a file denotes: everything skipped has left no trace, and the
      package statement is among what is skipped. */
  function FileOf(f: FileSyntax): ProtoFile {
    ProtoFile("", DeclsOf(f.entries).enums, DeclsOf(f.entries).messages)
  }

  // ---------------------------------------------------------------- every tree is parsed

  lemma TailParses(digits: string, opts: seq<Lex>, k: seq<Lex>)
    requires ValidTail(digits, opts) && Stream(k)
    ensures ParseTail(TailTokens(digits, opts, k)) == Done(NumberOf(digits), k)
  {
    hide ParseInt32, SkipOptions, BracketGroup;
    var k1 := [Sign(";")] + k;
    OptionsSkipped(opts, k1);
    var r2 := opts + k1;
    var r1 := [Lex(Number, digits)] + r2;
    assert r1[1..] == r2 && ([Sign("=")] + r1)[1..] == r1;
  }

  lemma OptionsSkipped(opts: seq<Lex>, k: seq<Lex>)
    requires (opts == [] || BracketGroup(opts)) && Stream(k) && !IsP(k[0], "[")
    ensures Stream(opts + k) && SkipOptions(opts + k) == k
  {
    OptionsStream(opts, k);
    if opts == [] {
      assert opts + k == k;
    } else {
      SkipBracketsStops(opts[1..], 1, k);
      assert (opts + k)[1..] == opts[1..] + k;
    }
  }

  lemma FieldParses(f: FieldSyntax, repeated: bool, k: seq<Lex>)
    requires ValidField(f) && Stream(k)
    ensures ParseField(FieldTokens(f, k), repeated) == Done(FieldOf(f, repeated), k)
  {
    TailParses(f.digits, f.opts, k);
    var r2 := TailTokens(f.digits, f.opts, k);
    var r1 := [Word(f.name)] + r2;
    assert r1[1..] == r2 && ([Word(f.typ)] + r1)[1..] == r1;
  }

  lemma SkippedParses(stmt: seq<Lex>, words: set<string>, k: seq<Lex>)
    requires SkippedBy(stmt, words) && Stream(k)
    ensures Stream(stmt + k) && IsWord((stmt + k)[0], words) && SkipStatement(stmt + k, 0) == k
  {
    SkipStatementStops(stmt, 0, k);
  }

  lemma EnumEntryParses(e: EnumEntry, k: seq<Lex>)
    requires ValidEnumEntry(e) && Stream(k)
    ensures EnumItem(EnumEntryTokens(e, k)) == Done(EntryValues(e), k)
  {
    match e
    case EnumSkip(stmt) => SkippedParses(stmt, SKIP_WORDS, k);
    case EnumVal(name, digits, opts) =>
      TailParses(digits, opts, k);
      assert ([Word(name)] + TailTokens(digits, opts, k))[1..] == TailTokens(digits, opts, k);
  }

  lemma {:induction false} EnumParses(es: seq<EnumEntry>, ed: EnumDef, k: seq<Lex>)
    requires (forall e :: e in es ==> ValidEnumEntry(e)) && Stream(k)
    ensures EnumBody(EnumTokens(es, k), ed) == Done(ed.(values := ed.values + ValuesOf(es)), k)
  {
    hide EnumItem, EnumEntryTokens, EntryValues, ValidEnumEntry;
    if es == [] {
      assert ([Sign("}")] + k)[1..] == k;
      assert ed.values + [] == ed.values;
    } else {
      var vs := EntryValues(es[0]);
      EnumEntryParses(es[0], EnumTokens(es[1..], k));
      EnumParses(es[1..], ed.(values := ed.values + vs), k);
      assert (ed.values + vs) + ValuesOf(es[1..]) == ed.values + ValuesOf(es);
    }
  }

  lemma OneofEntryParses(e: OneofEntry, k: seq<Lex>)
    requires ValidOneofEntry(e) && Stream(k)
    ensures OneofItem(OneofEntryTokens(e, k)) == Done(EntryVariants(e), k)
  {
    match e
    case OneofSkip(stmt) => SkippedParses(stmt, SKIP_WORDS, k);
    case Variant(f) => FieldParses(f, false, k);
  }

  lemma {:induction false} OneofParses(es: seq<OneofEntry>, od: OneofDef, k: seq<Lex>)
    requires (forall e :: e in es ==> ValidOneofEntry(e)) && Stream(k)
    ensures OneofBody(OneofTokens(es, k), od) == Done(od.(variants := od.variants + VariantsOf(es)), k)
  {
    hide OneofItem, OneofEntryTokens, EntryVariants, ValidOneofEntry;
    if es == [] {
      assert ([Sign("}")] + k)[1..] == k;
      assert od.variants + [] == od.variants;
    } else {
      var vs := EntryVariants(es[0]);
      OneofEntryParses(es[0], OneofTokens(es[1..], k));
      OneofParses(es[1..], od.(variants := od.variants + vs), k);
      assert (od.variants + vs) + VariantsOf(es[1..]) == od.variants + VariantsOf(es);
    }
  }

  lemma NamedParses(name: string, body: seq<Lex>)
    requires Stream(body)
    ensures ExpectIdent(Named(name, body)) == Done(name, [Sign("{")] + body)
    ensures Stream([Sign("{")] + body) && ExpectPunct([Sign("{")] + body, "{") == Done((), body)
  {
    assert Named(name, body)[1..] == [Sign("{")] + body;
    assert ([Sign("{")] + body)[1..] == body;
  }

  lemma NestedParses(name: string, body: seq<Lex>, k: seq<Lex>)
    requires Group(body, 1, CurlyOnly) && Stream(k)
    ensures SkipNested(NestedTokens(name, body, k)) == Done((), k)
  {
    SkipBracesStops(body, 1, k);
    NamedParses(name, body + k);
  }

  lemma OneofDeclParses(name: string, entries: seq<OneofEntry>, k: seq<Lex>)
    requires (forall o :: o in entries ==> ValidOneofEntry(o)) && Stream(k)
    ensures ParseOneof(Named(name, OneofTokens(entries, k))) == Done(OneofDef(name, VariantsOf(entries)), k)
  {
    NamedParses(name, OneofTokens(entries, k));
    OneofParses(entries, OneofDef(name, []), k);
    assert [] + VariantsOf(entries) == VariantsOf(entries);
  }

  lemma ConsRest(l: Lex, ls: seq<Lex>)
    ensures ([l] + ls)[0] == l && ([l] + ls)[1..] == ls
  {
  }

  lemma RepeatedParses(f: FieldSyntax, k: seq<Lex>)
    requires ValidField(f) && Stream(k)
    ensures MessageItem(MessageEntryTokens(Repeated(f), k)) == Done(EntryMembers(Repeated(f)), k)
  {
    hide ParseField, FieldTokens, FieldOf, ValidField, ValidTail, NumberOf, ParseOneof, SkipNested, SkipStatement;
    FieldParses(f, true, k);
    ConsRest(Word("repeated"), FieldTokens(f, k));
  }

  lemma PlainParses(f: FieldSyntax, k: seq<Lex>)
    requires ValidField(f) && f.typ !in MESSAGE_WORDS && Stream(k)
    ensures MessageItem(MessageEntryTokens(Plain(f), k)) == Done(EntryMembers(Plain(f)), k)
  {
    hide ParseField, FieldTokens, ValidField, ValidTail, NumberOf;
    FieldParses(f, false, k);
  }

  lemma MessageEntryParses(e: MessageEntry, k: seq<Lex>)
    requires ValidMessageEntry(e) && Stream(k)
    ensures MessageItem(MessageEntryTokens(e, k)) == Done(EntryMembers(e), k)
  {
    hide ParseField, FieldTokens, ParseOneof, SkipNested, Named, NestedTokens, OneofTokens, SkipStatement;
    match e
    case MessageSkip(stmt) => SkippedParses(stmt, SKIP_WORDS, k);
    case Nested(word, name, body) =>
      NestedParses(name, body, k);
      ConsRest(Word(word), NestedTokens(name, body, k));
    case OneofEntry(name, entries) =>
      OneofDeclParses(name, entries, k);
      ConsRest(Word("oneof"), Named(name, OneofTokens(entries, k)));
    case Repeated(f) => RepeatedParses(f, k);
    case Plain(f) => PlainParses(f, k);
  }

  lemma AddMembersTwice(md: MessageDef, m: Members, n: Members)
    ensures AddMembers(AddMembers(md, m), n) == AddMembers(md, Members(m.fields + n.fields, m.oneofs + n.oneofs))
  {
    assert (md.fields + m.fields) + n.fields == md.fields + (m.fields + n.fields);
    assert (md.oneofs + m.oneofs) + n.oneofs == md.oneofs + (m.oneofs + n.oneofs);
  }

  lemma {:induction false} MessageParses(es: seq<MessageEntry>, md: MessageDef, k: seq<Lex>)
    requires (forall e :: e in es ==> ValidMessageEntry(e)) && Stream(k)
    ensures MessageBody(MessageTokens(es, k), md) == Done(AddMembers(md, MembersOf(es)), k)
  {
    hide MessageItem, MessageEntryTokens, EntryMembers, ValidMessageEntry;
    if es == [] {
      ConsRest(Sign("}"), k);
      assert md.fields + [] == md.fields && md.oneofs + [] == md.oneofs;
    } else {
      var m := EntryMembers(es[0]);
      MessageEntryParses(es[0], MessageTokens(es[1..], k));
      MessageParses(es[1..], AddMembers(md, m), k);
      AddMembersTwice(md, m, MembersOf(es[1..]));
    }
  }

  lemma EnumDeclParses(name: string, values: seq<EnumEntry>, k: seq<Lex>)
    requires (forall v :: v in values ==> ValidEnumEntry(v)) && Stream(k)
    ensures ParseEnum(Named(name, EnumTokens(values, k))) == Done(EnumDef(name, ValuesOf(values)), k)
  {
    NamedParses(name, EnumTokens(values, k));
    EnumParses(values, EnumDef(name, []), k);
    assert [] + ValuesOf(values) == ValuesOf(values);
  }

  lemma MessageDeclParses(name: string, members: seq<MessageEntry>, k: seq<Lex>)
    requires (forall m :: m in members ==> ValidMessageEntry(m)) && Stream(k)
    ensures ParseMessage(Named(name, MessageTokens(members, k))) == Done(MessageOf(name, members), k)
  {
    var m := MembersOf(members);
    NamedParses(name, MessageTokens(members, k));
    MessageParses(members, MessageDef(name, [], []), k);
    assert [] + m.fields == m.fields && [] + m.oneofs == m.oneofs;
  }

  lemma TopEntryParses(e: TopEntry, k: seq<Lex>)
    requires ValidTopEntry(e) && Stream(k)
    ensures TopItem(TopEntryTokens(e, k)) == Done(EntryDecls(e), k)
  {
    hide ParseEnum, ParseMessage, Named, EnumTokens, MessageTokens, SkipStatement;
    match e
    case TopSkip(stmt) => SkippedParses(stmt, TOP_SKIP_WORDS, k);
    case EnumEntry(name, values) =>
      EnumDeclParses(name, values, k);
      ConsRest(Word("enum"), Named(name, EnumTokens(values, k)));
    case MessageEntry(name, members) =>
      MessageDeclParses(name, members, k);
      ConsRest(Word("message"), Named(name, MessageTokens(members, k)));
  }

  lemma AddDeclsTwice(pf: ProtoFile, d: Decls, n: Decls)
    ensures AddDecls(AddDecls(pf, d), n) == AddDecls(pf, Decls(d.enums + n.enums, d.messages + n.messages))
  {
    assert (pf.enums + d.enums) + n.enums == pf.enums + (d.enums + n.enums);
    assert (pf.messages + d.messages) + n.messages == pf.messages + (d.messages + n.messages);
  }

  lemma {:induction false} TopParses(es: seq<TopEntry>, pf: ProtoFile, k: seq<Lex>)
    requires (forall e :: e in es ==> ValidTopEntry(e)) && Stream(k)
    ensures FileBody(TopTokens(es, k), pf) == FileBody(k, AddDecls(pf, DeclsOf(es)))
  {
    hide TopItem, TopEntryTokens, EntryDecls, ValidTopEntry;
    if es == [] {
      assert pf.enums + [] == pf.enums && pf.messages + [] == pf.messages;
    } else {
      var d := EntryDecls(es[0]);
      TopEntryParses(es[0], TopTokens(es[1..], k));
      TopParses(es[1..], AddDecls(pf, d), k);
      AddDeclsTwice(pf, d, DeclsOf(es[1..]));
    }
  }

  lemma CutSkipped(cut: seq<Lex>, pf: ProtoFile)
    requires cut != [] && NoEof(cut) && IsWord(cut[0], TOP_SKIP_WORDS)
    requires forall n :: 0 < n <= |cut| ==> !Statement(cut[..n], 0)
    ensures Stream(cut + [EOF_LEX]) && FileBody(cut + [EOF_LEX], pf) == Done(pf, [EOF_LEX])
  {
    var ls := cut + [EOF_LEX];
    StreamAppend(cut, [EOF_LEX]);
    SkipStatementCases(ls, 0);
    var r := SkipStatement(ls, 0);
    assert ls[0] == cut[0];
    assert ls[..|ls| - |r|] == cut[..|ls| - |r|];
    assert r[0] == EOF_LEX && r == [EOF_LEX];
    assert AddDecls(pf, Decls([], [])) == pf by {
      assert pf.enums + [] == pf.enums && pf.messages + [] == pf.messages;
    }
    assert TopItem(ls) == Done(Decls([], []), r);
  }

  /** Parsing the tokens of any syntax tree gives the model the tree denotes. */
  lemma FileParses(f: FileSyntax)
    requires ValidFile(f)
    ensures ParseFile(FileTokens(f)) == Done(FileOf(f), [EOF_LEX])
  {
    var k, d := f.cut + [EOF_LEX], DeclsOf(f.entries);
    StreamAppend(f.cut, [EOF_LEX]);
    TopParses(f.entries, ProtoFile("", [], []), k);
    assert [] + d.enums == d.enums && [] + d.messages == d.messages;
    if f.cut == [] {
      assert k == [EOF_LEX];
    } else {
      CutSkipped(f.cut, FileOf(f));
    }
  }
}
