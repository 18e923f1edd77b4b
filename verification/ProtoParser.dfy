/**
 The recursive-descent parser of cmd/protogen-tesla/parser.go.

 The functions below read a stream of token kinds and values and return what
 is left of it; they say what a file means. The class `Parser` of the module
 ProtoParserObject is the original object, a token slice and a position its
 methods move, proved against them. An error names the offending token through the number of tokens
 from it to the end, so the same statement covers lines and columns.
*/
module ProtoParser {
  import opened Strconv
  import opened ProtoLexer

  // ---------------------------------------------------------------- model

  datatype EnumValue = EnumValue(name: string, number: int)
  datatype EnumDef = EnumDef(name: string, values: seq<EnumValue>)
  datatype FieldDef = FieldDef(name: string, typ: string, number: int, repeated: bool)
  datatype OneofDef = OneofDef(name: string, variants: seq<FieldDef>)
  datatype MessageDef = MessageDef(name: string, fields: seq<FieldDef>, oneofs: seq<OneofDef>)
  datatype ProtoFile = ProtoFile(package: string, enums: seq<EnumDef>, messages: seq<MessageDef>)

  datatype Complaint =
    | WantPunct(s: string)
    | WantIdent
    | WantNumber
    | BadNumber
    | WantTopLevel
    | UnknownTopLevel
    | WantEnumValue

  /** A parsed value and the tokens left, or a complaint about the token that
      has `left` tokens from it to the end. */
  datatype Parsed<+T> = Done(value: T, rest: seq<Lex>) | Bad(what: Complaint, left: nat) {
    predicate IsFailure() { Bad? }
    function PropagateFailure<U>(): Parsed<U>
      requires Bad?
    {
      Bad(what, left)
    }
    function Extract(): (T, seq<Lex>)
      requires Done?
    {
      (value, rest)
    }
  }

  // ---------------------------------------------------------------- streams

  /** A token stream as `tokenize` makes it: one EOF token, at the end. */
  predicate Stream(ls: seq<Lex>) {
    ls != [] && if |ls| == 1 then ls[0] == EOF_LEX else ls[0].kind != EOF && Stream(ls[1..])
  }

  predicate IsP(l: Lex, s: string) {
    l.kind == Punct && l.value == s
  }

  predicate IsWord(l: Lex, words: set<string>) {
    l.kind == Ident && l.value in words
  }

  /** `next`: the EOF token is never consumed. */
  function Next(ls: seq<Lex>): (r: seq<Lex>)
    requires Stream(ls)
    ensures Stream(r) && |r| <= |ls|
  {
    if ls[0].kind == EOF then ls else ls[1..]
  }

  /** The progress every parsing function makes. */
  predicate Shorter<T>(p: Parsed<T>, ls: seq<Lex>) {
    match p
    case Done(_, rest) => Stream(rest) && |rest| < |ls|
    case Bad(_, left) => 1 <= left <= |ls|
  }

  // ---------------------------------------------------------------- skipping

  function SkipStatement(ls: seq<Lex>, depth: int): (r: seq<Lex>)
    requires Stream(ls)
    ensures Stream(r) && |r| <= |ls|
    ensures ls[0].kind != EOF ==> |r| < |ls|
    decreases |ls|
  {
    if ls[0].kind == EOF then ls
    else if IsP(ls[0], "{") || IsP(ls[0], "(") || IsP(ls[0], "[") then SkipStatement(ls[1..], depth + 1)
    else if IsP(ls[0], "}") || IsP(ls[0], ")") || IsP(ls[0], "]") then SkipStatement(ls[1..], depth - 1)
    else if IsP(ls[0], ";") && depth == 0 then ls[1..]
    else SkipStatement(ls[1..], depth)
  }

  function SkipBrackets(ls: seq<Lex>, depth: int): (r: seq<Lex>)
    requires Stream(ls)
    ensures Stream(r) && |r| <= |ls|
    decreases |ls|
  {
    if ls[0].kind == EOF then ls
    else if IsP(ls[0], "[") then SkipBrackets(ls[1..], depth + 1)
    else if IsP(ls[0], "]") then if depth == 1 then ls[1..] else SkipBrackets(ls[1..], depth - 1)
    else SkipBrackets(ls[1..], depth)
  }

  function SkipBraces(ls: seq<Lex>, depth: int): (r: seq<Lex>)
    requires Stream(ls)
    ensures Stream(r) && |r| <= |ls|
    decreases |ls|
  {
    if depth <= 0 || ls[0].kind == EOF then ls
    else if IsP(ls[0], "{") then SkipBraces(ls[1..], depth + 1)
    else if IsP(ls[0], "}") then SkipBraces(ls[1..], depth - 1)
    else SkipBraces(ls[1..], depth)
  }

  function SkipOptions(ls: seq<Lex>): (r: seq<Lex>)
    requires Stream(ls)
    ensures Stream(r) && |r| <= |ls|
  {
    if IsP(ls[0], "[") then SkipBrackets(ls, 0) else ls
  }

  // ---------------------------------------------------------------- expectations

  function ExpectPunct(ls: seq<Lex>, s: string): (p: Parsed<()>)
    requires Stream(ls)
    ensures Shorter(p, ls)
  {
    if IsP(ls[0], s) then Done((), ls[1..]) else Bad(WantPunct(s), |ls|)
  }

  function ExpectIdent(ls: seq<Lex>): (p: Parsed<string>)
    requires Stream(ls)
    ensures Shorter(p, ls)
  {
    if ls[0].kind == Ident then Done(ls[0].value, ls[1..]) else Bad(WantIdent, |ls|)
  }

  function ExpectNumber(ls: seq<Lex>): (p: Parsed<int>)
    requires Stream(ls)
    ensures Shorter(p, ls)
  {
    if ls[0].kind != Number then Bad(WantNumber, |ls|)
    else match ParseInt32(ls[0].value)
      case Some(n) => Done(n, ls[1..])
      case None => Bad(BadNumber, |ls|)
  }

  // ---------------------------------------------------------------- declarations

  /** `= <number> [options] ;`, the tail of enum values and fields. */
  function ParseTail(ls: seq<Lex>): (p: Parsed<int>)
    requires Stream(ls)
    ensures Shorter(p, ls)
  {
    var (_, r1) :- ExpectPunct(ls, "=");
    var (num, r2) :- ExpectNumber(r1);
    var (_, r3) :- ExpectPunct(SkipOptions(r2), ";");
    Done(num, r3)
  }

  function ParseField(ls: seq<Lex>, repeated: bool): (p: Parsed<FieldDef>)
    requires Stream(ls)
    ensures Shorter(p, ls)
  {
    var (typ, r1) :- ExpectIdent(ls);
    var (name, r2) :- ExpectIdent(r1);
    var (num, r3) :- ParseTail(r2);
    Done(FieldDef(name, typ, num, repeated), r3)
  }

  const SKIP_WORDS := {"option", "reserved"}
  const TOP_SKIP_WORDS := {"syntax", "package", "import", "option"}

  /** The words a message body dispatches on. */
  const MESSAGE_WORDS := {"option", "reserved", "oneof", "message", "enum", "repeated"}

  /** One entry of an enum body: a skipped statement, or a value. */
  function EnumItem(ls: seq<Lex>): (p: Parsed<seq<EnumValue>>)
    requires Stream(ls)
    ensures Shorter(p, ls)
  {
    if IsWord(ls[0], SKIP_WORDS) then Done([], SkipStatement(ls, 0))
    else if ls[0].kind != Ident then Bad(WantEnumValue, |ls|)
    else
      var (num, r) :- ParseTail(ls[1..]);
      Done([EnumValue(ls[0].value, num)], r)
  }

  function EnumBody(ls: seq<Lex>, ed: EnumDef): (p: Parsed<EnumDef>)
    requires Stream(ls)
    ensures Shorter(p, ls)
    decreases |ls|
  {
    if IsP(ls[0], "}") then Done(ed, ls[1..])
    else
      var (vs, r) :- EnumItem(ls);
      EnumBody(r, ed.(values := ed.values + vs))
  }

  function ParseEnum(ls: seq<Lex>): (p: Parsed<EnumDef>)
    requires Stream(ls)
    ensures Shorter(p, ls)
  {
    var (name, r1) :- ExpectIdent(ls);
    var (_, r2) :- ExpectPunct(r1, "{");
    EnumBody(r2, EnumDef(name, []))
  }

  /** One entry of a oneof body: a skipped statement, or a variant. */
  function OneofItem(ls: seq<Lex>): (p: Parsed<seq<FieldDef>>)
    requires Stream(ls)
    ensures Shorter(p, ls)
  {
    if IsWord(ls[0], SKIP_WORDS) then Done([], SkipStatement(ls, 0))
    else
      var (fd, r) :- ParseField(ls, false);
      Done([fd], r)
  }

  function OneofBody(ls: seq<Lex>, od: OneofDef): (p: Parsed<OneofDef>)
    requires Stream(ls)
    ensures Shorter(p, ls)
    decreases |ls|
  {
    if IsP(ls[0], "}") then Done(od, ls[1..])
    else
      var (vs, r) :- OneofItem(ls);
      OneofBody(r, od.(variants := od.variants + vs))
  }

  function ParseOneof(ls: seq<Lex>): (p: Parsed<OneofDef>)
    requires Stream(ls)
    ensures Shorter(p, ls)
  {
    var (name, r1) :- ExpectIdent(ls);
    var (_, r2) :- ExpectPunct(r1, "{");
    OneofBody(r2, OneofDef(name, []))
  }

  /** A nested type after its keyword: its name and its whole body are skipped. */
  function SkipNested(ls: seq<Lex>): (p: Parsed<()>)
    requires Stream(ls)
    ensures Shorter(p, ls)
  {
    var (_, r1) :- ExpectIdent(ls);
    var (_, r2) :- ExpectPunct(r1, "{");
    Done((), SkipBraces(r2, 1))
  }

  /** What one entry adds to a message. */
  datatype Members = Members(fields: seq<FieldDef>, oneofs: seq<OneofDef>)

  function AddMembers(md: MessageDef, m: Members): MessageDef {
    md.(fields := md.fields + m.fields, oneofs := md.oneofs + m.oneofs)
  }

  /** One entry of a message body. */
  function MessageItem(ls: seq<Lex>): (p: Parsed<Members>)
    requires Stream(ls)
    ensures Shorter(p, ls)
  {
    if IsWord(ls[0], SKIP_WORDS) then Done(Members([], []), SkipStatement(ls, 0))
    else if IsWord(ls[0], {"oneof"}) then
      var (od, r) :- ParseOneof(ls[1..]);
      Done(Members([], [od]), r)
    else if IsWord(ls[0], {"message", "enum"}) then
      var (_, r) :- SkipNested(ls[1..]);
      Done(Members([], []), r)
    else if IsWord(ls[0], {"repeated"}) then
      var (fd, r) :- ParseField(ls[1..], true);
      Done(Members([fd], []), r)
    else
      var (fd, r) :- ParseField(ls, false);
      Done(Members([fd], []), r)
  }

  function MessageBody(ls: seq<Lex>, md: MessageDef): (p: Parsed<MessageDef>)
    requires Stream(ls)
    ensures Shorter(p, ls)
    decreases |ls|
  {
    if IsP(ls[0], "}") then Done(md, ls[1..])
    else
      var (m, r) :- MessageItem(ls);
      MessageBody(r, AddMembers(md, m))
  }

  function ParseMessage(ls: seq<Lex>): (p: Parsed<MessageDef>)
    requires Stream(ls)
    ensures Shorter(p, ls)
  {
    var (name, r1) :- ExpectIdent(ls);
    var (_, r2) :- ExpectPunct(r1, "{");
    MessageBody(r2, MessageDef(name, [], []))
  }

  /** What one top-level declaration adds to a file. */
  datatype Decls = Decls(enums: seq<EnumDef>, messages: seq<MessageDef>)

  function AddDecls(pf: ProtoFile, d: Decls): ProtoFile {
    pf.(enums := pf.enums + d.enums, messages := pf.messages + d.messages)
  }

  /** One top-level declaration. */
  function TopItem(ls: seq<Lex>): (p: Parsed<Decls>)
    requires Stream(ls)
    ensures Shorter(p, ls)
  {
    if ls[0].kind != Ident then Bad(WantTopLevel, |ls|)
    else if ls[0].value in TOP_SKIP_WORDS then Done(Decls([], []), SkipStatement(ls, 0))
    else if ls[0].value == "enum" then
      var (ed, r) :- ParseEnum(ls[1..]);
      Done(Decls([ed], []), r)
    else if ls[0].value == "message" then
      var (md, r) :- ParseMessage(ls[1..]);
      Done(Decls([], [md]), r)
    else Bad(UnknownTopLevel, |ls|)
  }

  function FileBody(ls: seq<Lex>, pf: ProtoFile): (p: Parsed<ProtoFile>)
    requires Stream(ls)
    ensures p.Done? ==> Stream(p.rest) && p.rest[0].kind == EOF
    ensures p.Bad? ==> 1 <= p.left <= |ls|
    decreases |ls|
  {
    if ls[0].kind == EOF then Done(pf, ls)
    else
      var (d, r) :- TopItem(ls);
      FileBody(r, AddDecls(pf, d))
  }

  /** What a token stream means as a proto file. */
  function ParseFile(ls: seq<Lex>): Parsed<ProtoFile>
    requires Stream(ls)
  {
    FileBody(ls, ProtoFile("", [], []))
  }
}
