/**
 The tokens of cmd/protogen-tesla/parser.go said outright: a text is read if and only if
 it is a run of blanks, comments, identifiers, numbers, strings and punctuation written
 as below, and it is then read as these.
*/
module ProtoTokens {
  import opened Wrappers
  import opened ProtoLexer
  import Theory = ProtoLexerTheory

  // ---------------------------------------------------------------- characters

  predicate Digit(c: char) {
    '0' <= c <= '9'
  }

  /** The letters up to Latin-1. */
  predicate Letter(c: char) {
    || 'a' <= c <= 'z' || 'A' <= c <= 'Z'
    || c == '\U{aa}' || c == '\U{b5}' || c == '\U{ba}'
    || '\U{c0}' <= c <= '\U{d6}' || '\U{d8}' <= c <= '\U{f6}' || '\U{f8}' <= c <= '\U{ff}'
  }

  predicate WordTail(c: char) {
    Letter(c) || Digit(c) || c == '_' || c == '.'
  }

  predicate NumberTail(c: char) {
    Digit(c) || c == '.'
  }

  // ---------------------------------------------------------------- chunks

  datatype Chunk =
    | Blank(c: char)
    | LineNote(body: string, closed: bool)
    | BlockNote(body: string)
    | Name(text: string)
    | Numeral(text: string)
    | Quote(quote: char, body: string)
    | Sign(c: char)

  function ChunkText(c: Chunk): string {
    match c
    case Blank(b) => [b]
    case LineNote(body, closed) => "//" + body + if closed then "\n" else ""
    case BlockNote(body) => "/*" + body + "*/"
    case Name(t) => t
    case Numeral(t) => t
    case Quote(q, body) => [q] + body + [q]
    case Sign(p) => [p]
  }

  /** The token a chunk is read as; blanks and comments are none. */
  function ChunkLex(c: Chunk): Option<Lex> {
    match c
    case Name(t) => Some(Lex(Ident, t))
    case Numeral(t) => Some(Lex(Number, t))
    case Quote(_, body) => Some(Lex(Str, body))
    case Sign(p) => Some(Lex(Punct, [p]))
    case _ => None
  }

  /** Backslashes with the character behind them, and other characters that do not end
      the string. */
  predicate StringBody(t: string, quote: char) {
    t == "" ||
    if t[0] == '\\' then |t| >= 2 && StringBody(t[2..], quote)
    else t[0] != quote && StringBody(t[1..], quote)
  }

  /** No star with a slash behind it. */
  predicate NoMark(body: string) {
    forall j :: 0 <= j && j + 1 < |body| ==> !(body[j] == '*' && body[j + 1] == '/')
  }

  predicate Valid(c: Chunk) {
    match c
    case Blank(b) => b == ' ' || b == '\t' || b == '\r' || b == '\n'
    case LineNote(body, _) => '\n' !in body
    case BlockNote(body) => NoMark(body)
    case Name(t) => t != "" && (Letter(t[0]) || t[0] == '_') && forall k :: 0 <= k < |t| ==> WordTail(t[k])
    case Numeral(t) => t != "" && (t[0] == '-' || Digit(t[0])) && forall k :: 1 <= k < |t| ==> NumberTail(t[k])
    case Quote(q, body) => (q == '"' || q == '\'') && StringBody(body, q)
    case Sign(p) =>
      p == '{' || p == '}' || p == '(' || p == ')' || p == '[' || p == ']' || p == '<' || p == '>'
      || p == '=' || p == ';' || p == ','
  }

  /** What may stand behind a chunk: nothing that would go on with it. */
  predicate Follows(c: Chunk, rest: string) {
    rest == "" ||
    match c
    case LineNote(_, closed) => closed
    case Name(_) => !WordTail(rest[0])
    case Numeral(_) => !NumberTail(rest[0])
    case _ => true
  }

  function TextOf(cs: seq<Chunk>): string {
    if cs == [] then "" else ChunkText(cs[0]) + TextOf(cs[1..])
  }

  /** Chunks as written one behind the other, in front of `rest`. */
  predicate Layout(cs: seq<Chunk>, rest: string) {
    cs == [] || (Valid(cs[0]) && Follows(cs[0], TextOf(cs[1..]) + rest) && Layout(cs[1..], rest))
  }

  /** The tokens of the chunks, the first of which stands at `at`. */
  function LexemesOf(cs: seq<Chunk>, at: nat): seq<Lexeme> {
    if cs == [] then []
    else TokenOf(cs[0], at) + LexemesOf(cs[1..], at + |ChunkText(cs[0])|)
  }

  function TokenOf(c: Chunk, at: nat): seq<Lexeme> {
    match ChunkLex(c) case None => [] case Some(l) => [Lexeme(l, at, at + |ChunkText(c)|)]
  }

  /** What cannot be read on: a comment or string that does not end, or a character that
      begins nothing; `at` is where the failure is reported. */
  predicate Stuck(rest: string, e: LexError, at: nat) {
    rest != "" &&
    match e
    case UnterminatedComment =>
      "/*" <= rest && NoMark(rest[2..]) && at == if |rest| == 2 then 2 else |rest| - 1
    case UnterminatedString =>
      at == 0 && (rest[0] == '"' || rest[0] == '\'') && Unended(rest[1..], rest[0])
    case UnexpectedChar =>
      at == 0 && Foreign(rest)
  }

  predicate Unended(t: string, quote: char) {
    StringBody(t, quote) || (t != "" && t[|t| - 1] == '\\' && StringBody(t[..|t| - 1], quote))
  }

  /** No chunk begins like this. */
  predicate Foreign(rest: string)
    requires rest != ""
  {
    var c := rest[0];
    && c != ' ' && c != '\t' && c != '\r' && c != '\n' && c != '"' && c != '\''
    && !Letter(c) && c != '_' && c != '-' && !Digit(c) && !Valid(Sign(c))
    && !("//" <= rest) && !("/*" <= rest)
  }

  // ---------------------------------------------------------------- the tokenizer's classes

  lemma Classes(c: char)
    ensures IsSpace(c) <==> Valid(Blank(c))
    ensures IsLetter(c) <==> Letter(c)
    ensures IsPunct(c) <==> Valid(Sign(c))
    ensures IsIdentStart(c) <==> Letter(c) || c == '_'
    ensures IsIdentTail(c) <==> WordTail(c)
    ensures IsNumberTail(c) <==> NumberTail(c)
  {
    LetterRange(c);
    PunctRange(c);
  }

  lemma LetterRange(c: char)
    ensures IsLetter(c) <==> Letter(c)
  {
  }

  lemma PunctRange(c: char)
    ensures IsPunct(c) <==> Valid(Sign(c))
  {
  }

  // ---------------------------------------------------------------- ends

  lemma {:induction false} BlockIs(s: string, i: nat, n: nat)
    requires i + 2 <= n <= |s| && s[n - 2] == '*' && s[n - 1] == '/'
    requires forall j :: i <= j < n - 2 ==> !(s[j] == '*' && s[j + 1] == '/')
    ensures BlockEnd(s, i) == Some(n)
    decreases n - i
  {
    if i < n - 2 {
      BlockIs(s, i + 1, n);
    }
  }

  lemma {:induction false} BlockNone(s: string, i: nat)
    requires i <= |s| && forall j :: i <= j && j + 1 < |s| ==> !(s[j] == '*' && s[j + 1] == '/')
    ensures BlockEnd(s, i) == None
    decreases |s| - i
  {
    if i + 1 < |s| {
      BlockNone(s, i + 1);
    }
  }

  lemma {:induction false} BlockOf(s: string, i: nat)
    requires i <= |s|
    ensures match BlockEnd(s, i)
      case Some(n) =>
        i + 2 <= n <= |s| && s[n - 2] == '*' && s[n - 1] == '/'
        && forall j :: i <= j < n - 2 ==> !(s[j] == '*' && s[j + 1] == '/')
      case None => forall j :: i <= j && j + 1 < |s| ==> !(s[j] == '*' && s[j + 1] == '/')
    decreases |s| - i
  {
    if i + 1 < |s| {
      BlockOf(s, i + 1);
    }
  }

  lemma {:induction false} StringIs(s: string, i: nat, body: string, quote: char)
    requires i <= |s| && body + [quote] <= s[i..] && StringBody(body, quote) && quote != '\\'
    ensures StringEnd(s, i, quote) == Some(i + |body|)
    decreases |body|
  {
    var t := body + [quote];
    assert forall k :: 0 <= k < |t| ==> s[i + k] == s[i..][k] == t[k];
    if body != "" {
      var d := if body[0] == '\\' then 2 else 1;
      assert t[d..] == body[d..] + [quote] && s[i..][d..] == s[i + d..];
      assert s[i] == t[0] == body[0];
      StringIs(s, i + d, body[d..], quote);
    }
  }

  lemma {:induction false} StringNone(s: string, i: nat, quote: char)
    requires i <= |s| && Unended(s[i..], quote) && quote != '\\'
    ensures StringEnd(s, i, quote) == None
    decreases |s| - i
  {
    var t := s[i..];
    if t != "" {
      assert t[0] == s[i];
      if t[0] == '\\' && |t| > 1 {
        assert t[2..] == s[i + 2..];
        UnendedRest(t, quote, 2);
        StringNone(s, i + 2, quote);
      } else {
        assert t[1..] == s[i + 1..];
        UnendedRest(t, quote, 1);
        StringNone(s, i + 1, quote);
      }
    }
  }

  lemma UnendedRest(t: string, quote: char, d: nat)
    requires Unended(t, quote) && t != "" && quote != '\\' && d == (if t[0] == '\\' && |t| > 1 then 2 else 1)
    ensures t[0] != quote && Unended(t[d..], quote)
  {
    if !StringBody(t, quote) {
      var u := t[..|t| - 1];
      assert t[0] == '\\' || u[0] == t[0];
      if d <= |u| {
        assert u[d..] == t[d..][..|t| - d - 1];
      }
    }
  }

  lemma {:induction false} StringOf(s: string, i: nat, quote: char)
    requires i <= |s| && quote != '\\'
    ensures match StringEnd(s, i, quote)
      case Some(n) => i <= n < |s| && s[n] == quote && StringBody(s[i..n], quote)
      case None => Unended(s[i..], quote)
    decreases |s| - i
  {
    if i < |s| && s[i] != quote {
      var t := s[i..];
      if s[i] == '\\' && i + 1 < |s| {
        StringOf(s, i + 2, quote);
        match StringEnd(s, i + 2, quote)
        case Some(n) => assert s[i..n][2..] == s[i + 2..n];
        case None => UnendedLonger(t, quote, 2);
      } else {
        StringOf(s, i + 1, quote);
        match StringEnd(s, i + 1, quote)
        case Some(n) => assert s[i..n][1..] == s[i + 1..n];
        case None => UnendedLonger(t, quote, 1);
      }
    }
  }

  lemma UnendedLonger(t: string, quote: char, d: nat)
    requires t != "" && t[0] != quote && d == (if t[0] == '\\' && |t| > 1 then 2 else 1) && Unended(t[d..], quote)
    ensures Unended(t, quote)
  {
    var u, r := t[..|t| - 1], t[d..];
    if !StringBody(r, quote) {
      assert u[d..] == r[..|r| - 1];
    } else if t == "\\" {
      assert u == "";
    }
  }

  // ---------------------------------------------------------------- one chunk is one step

  lemma Cells(s: string, i: nat, t: string, rest: string)
    requires i <= |s| && s[i..] == t + rest
    ensures i + |t| <= |s| && s[i..i + |t|] == t && s[i + |t|..] == rest
    ensures forall k :: 0 <= k < |t| ==> s[i + k] == t[k]
    ensures rest == "" <==> i + |t| == |s|
    ensures rest != "" ==> s[i + |t|] == rest[0]
  {
    var u := s[i..];
    assert forall k :: 0 <= k < |t| ==> s[i + k] == u[k];
    assert s[i..i + |t|] == u[..|t|];
    assert s[i + |t|..] == u[|t|..];
  }

  function StepOver(c: Chunk, i: nat): Step {
    var end := i + |ChunkText(c)|;
    match ChunkLex(c) case None => Skip(end) case Some(l) => Emit(l, end)
  }

  /** The chunk stands at `i`, with `rest` behind it. */
  predicate Stands(s: string, i: nat, c: Chunk, rest: string) {
    i <= |s| && s[i..] == ChunkText(c) + rest && Valid(c) && Follows(c, rest)
  }

  lemma NameStep(s: string, i: nat, c: Chunk, rest: string)
    requires Stands(s, i, c, rest) && c.Name?
    ensures i < |s| && StepAt(s, i) == StepOver(c, i)
  {
    hide Letter, WordTail, IsLetter, IsIdentTail, IsIdentStart, SpanEnd, BlockEnd, StringEnd, IsPunct;
    var t, n := c.text, i + |c.text|;
    Cells(s, i, t, rest);
    assert s[i] == s[i + 0] == t[0];
    forall k | i <= k < n
      ensures IsIdentTail(s[k])
    {
      assert s[i + (k - i)] == t[k - i];
      Classes(s[k]);
    }
    if rest != "" {
      Classes(rest[0]);
    }
    Theory.SpanIs(s, i, n, IsIdentTail);
    Classes(s[i]);
    LetterApart(s[i]);
  }

  /** Letters are none of the other signs. */
  lemma LetterApart(c: char)
    requires Letter(c) || c == '_'
    ensures !IsSpace(c) && c != '/' && c != '"' && c != '\''
  {
  }

  lemma NumeralStep(s: string, i: nat, c: Chunk, rest: string)
    requires Stands(s, i, c, rest) && c.Numeral?
    ensures i < |s| && StepAt(s, i) == StepOver(c, i)
  {
    hide Letter, IsLetter, SpanEnd, BlockEnd, StringEnd, IsPunct;
    var t, n := c.text, i + |c.text|;
    Cells(s, i, t, rest);
    assert s[i] == s[i + 0] == t[0];
    forall k | i + 1 <= k < n
      ensures IsNumberTail(s[k])
    {
      assert s[i + (k - i)] == t[k - i];
      Classes(s[k]);
    }
    if rest != "" {
      Classes(rest[0]);
    }
    Theory.SpanIs(s, i + 1, n, IsNumberTail);
    DigitApart(s[i]);
  }

  lemma DigitApart(c: char)
    requires c == '-' || Digit(c)
    ensures IsDigit(c) || c == '-'
    ensures !IsSpace(c) && c != '/' && c != '"' && c != '\'' && !IsIdentStart(c)
  {
  }

  lemma QuoteStep(s: string, i: nat, c: Chunk, rest: string)
    requires Stands(s, i, c, rest) && c.Quote?
    ensures i < |s| && StepAt(s, i) == StepOver(c, i)
  {
    hide IsLetter, StringBody, SpanEnd, BlockEnd, StringEnd, IsPunct;
    QuoteCells(s, i, c.quote, c.body, rest);
    StringIs(s, i + 1, c.body, c.quote);
  }

  lemma QuoteCells(s: string, i: nat, q: char, body: string, rest: string)
    requires i <= |s| && s[i..] == [q] + body + [q] + rest
    ensures i + 1 + |body| < |s| && s[i] == q && body + [q] <= s[i + 1..] && s[i + 1..i + 1 + |body|] == body
  {
    var u := s[i..];
    assert s[i] == u[0];
    assert s[i + 1..] == u[1..] == (body + [q]) + rest;
    var w := s[i + 1..];
    assert w[..|body|] == body;
    assert s[i + 1..i + 1 + |body|] == w[..|body|];
  }

  lemma SignStep(s: string, i: nat, c: Chunk, rest: string)
    requires Stands(s, i, c, rest) && (c.Sign? || c.Blank?)
    ensures i < |s| && StepAt(s, i) == StepOver(c, i)
  {
    hide IsLetter, SpanEnd, BlockEnd, StringEnd, IsPunct;
    Cells(s, i, ChunkText(c), rest);
    assert s[i] == s[i + 0] == c.c;
    Classes(c.c);
    if c.Sign? {
      SignApart(c.c);
    }
  }

  lemma SignApart(c: char)
    requires Valid(Sign(c))
    ensures !IsSpace(c) && c != '/' && c != '"' && c != '\'' && !IsIdentStart(c) && c != '-' && !IsDigit(c)
  {
  }

  lemma LineStep(s: string, i: nat, c: Chunk, rest: string)
    requires Stands(s, i, c, rest) && c.LineNote?
    ensures i < |s| && StepAt(s, i) == StepOver(c, i)
  {
    hide IsLetter, SpanEnd, BlockEnd, StringEnd, IsPunct;
    var t := ChunkText(c);
    Cells(s, i, t, rest);
    assert s[i] == s[i + 0] == '/' && s[i + 1] == '/';
    var n := i + 2 + |c.body|;
    forall k | i + 2 <= k < n
      ensures s[k] != '\n'
    {
      assert s[i + (k - i)] == t[k - i] == c.body[k - i - 2];
    }
    if c.closed {
      assert s[i + (|t| - 1)] == t[|t| - 1] == '\n';
    }
    Theory.SpanIs(s, i + 2, n, NotNewline);
  }

  lemma BlockStep(s: string, i: nat, c: Chunk, rest: string)
    requires Stands(s, i, c, rest) && c.BlockNote?
    ensures i < |s| && StepAt(s, i) == StepOver(c, i)
  {
    hide IsLetter, SpanEnd, BlockEnd, StringEnd, IsPunct;
    var t := ChunkText(c);
    Cells(s, i, t, rest);
    assert s[i] == s[i + 0] == '/' && s[i + 1] == '*';
    var n := i + |t|;
    assert s[i + (|t| - 2)] == t[|t| - 2] == '*' && s[i + (|t| - 1)] == t[|t| - 1] == '/';
    forall j | i + 2 <= j < n - 2
      ensures !(s[j] == '*' && s[j + 1] == '/')
    {
      assert s[i + (j - i)] == t[j - i] == c.body[j - i - 2];
      assert s[i + (j + 1 - i)] == t[j + 1 - i];
      assert j + 1 < n - 2 ==> t[j + 1 - i] == c.body[j - i - 1];
    }
    BlockIs(s, i + 2, n);
  }

  /** A chunk that stands in a text is read over in one step. */
  lemma ChunkStep(s: string, i: nat, c: Chunk, rest: string)
    requires Stands(s, i, c, rest)
    ensures i < |s| && StepAt(s, i) == StepOver(c, i)
  {
    hide Stands, StepOver, StepAt;
    match c
    case Blank(_) => SignStep(s, i, c, rest);
    case LineNote(_, _) => LineStep(s, i, c, rest);
    case BlockNote(_) => BlockStep(s, i, c, rest);
    case Name(_) => NameStep(s, i, c, rest);
    case Numeral(_) => NumeralStep(s, i, c, rest);
    case Quote(_, _) => QuoteStep(s, i, c, rest);
    case Sign(_) => SignStep(s, i, c, rest);
  }

  // ---------------------------------------------------------------- one step is one chunk

  lemma NameOf(s: string, i: nat) returns (c: Chunk, rest: string)
    requires i < |s| && (Letter(s[i]) || s[i] == '_')
    ensures Stands(s, i, c, rest)
  {
    hide Letter, WordTail, IsLetter, IsIdentTail, SpanEnd;
    var n := SpanEnd(s, i, IsIdentTail);
    Classes(s[i]);
    TailOfStart(s[i]);
    c, rest := Name(s[i..n]), s[n..];
    forall k | 0 <= k < n - i
      ensures WordTail(s[i..n][k])
    {
      Classes(s[i + k]);
    }
    if rest != "" {
      Classes(s[n]);
    }
    assert s[i..] == s[i..n] + s[n..];
  }

  lemma TailOfStart(c: char)
    requires Letter(c) || c == '_'
    ensures WordTail(c)
  {
  }

  lemma NumeralOf(s: string, i: nat) returns (c: Chunk, rest: string)
    requires i < |s| && (s[i] == '-' || Digit(s[i]))
    ensures Stands(s, i, c, rest)
  {
    hide SpanEnd;
    var n := SpanEnd(s, i + 1, IsNumberTail);
    c, rest := Numeral(s[i..n]), s[n..];
    forall k | 1 <= k < n - i
      ensures NumberTail(s[i..n][k])
    {
      assert IsNumberTail(s[i + k]);
    }
    assert s[i..] == s[i..n] + s[n..];
  }

  /** At a quote stands a string, or one that does not end. */
  lemma QuoteOf(s: string, i: nat) returns (c: Chunk, rest: string)
    requires i < |s| && (s[i] == '"' || s[i] == '\'')
    ensures Stands(s, i, c, rest) || Stuck(s[i..], UnterminatedString, 0)
  {
    hide StringBody, StringEnd;
    StringOf(s, i + 1, s[i]);
    assert s[i..][1..] == s[i + 1..];
    c, rest := Quote(s[i], ""), "";
    if StringEnd(s, i + 1, s[i]).Some? {
      var n := StringEnd(s, i + 1, s[i]).value;
      c, rest := Quote(s[i], s[i + 1..n]), s[n + 1..];
      assert s[i..] == [s[i]] + s[i + 1..n] + [s[n]] + s[n + 1..];
    }
  }

  lemma LineOf(s: string, i: nat) returns (c: Chunk, rest: string)
    requires i + 1 < |s| && s[i] == '/' && s[i + 1] == '/'
    ensures Stands(s, i, c, rest)
  {
    hide SpanEnd;
    var n := SpanEnd(s, i + 2, NotNewline);
    if n < |s| {
      c, rest := LineNote(s[i + 2..n], true), s[n + 1..];
      assert s[i..] == "//" + s[i + 2..n] + "\n" + s[n + 1..];
    } else {
      c, rest := LineNote(s[i + 2..], false), "";
      assert s[i..] == "//" + s[i + 2..] + "";
    }
    assert forall k :: i + 2 <= k < n ==> NotNewline(s[k]);
    assert '\n' !in s[i + 2..n];
  }

  /** At a comment mark stands a comment, or one that does not end. */
  lemma BlockChunk(s: string, i: nat) returns (c: Chunk, rest: string)
    requires i + 1 < |s| && s[i] == '/' && s[i + 1] == '*'
    ensures Stands(s, i, c, rest) || Stuck(s[i..], UnterminatedComment, if i + 2 == |s| then 2 else |s| - 1 - i)
  {
    hide BlockEnd;
    BlockOf(s, i + 2);
    c, rest := BlockNote(""), "";
    if BlockEnd(s, i + 2).Some? {
      var n := BlockEnd(s, i + 2).value;
      c, rest := BlockNote(s[i + 2..n - 2]), s[n..];
      assert s[i..] == "/*" + s[i + 2..n - 2] + "*/" + s[n..];
      var b := s[i + 2..n - 2];
      forall j | 0 <= j && j + 1 < |b|
        ensures !(b[j] == '*' && b[j + 1] == '/')
      {
        assert b[j] == s[i + 2 + j] && b[j + 1] == s[i + 2 + j + 1];
      }
    } else {
      var t := s[i..][2..];
      assert s[i..][..2] == "/*";
      assert forall j :: 0 <= j < |t| ==> t[j] == s[i + 2 + j];
      forall j | 0 <= j && j + 1 < |t|
        ensures !(t[j] == '*' && t[j + 1] == '/')
      {
        assert t[j] == s[i + 2 + j] && t[j + 1] == s[i + 2 + j + 1];
      }
    }
  }

  lemma OneSign(s: string, i: nat) returns (c: Chunk, rest: string)
    requires i < |s| && (Valid(Blank(s[i])) || Valid(Sign(s[i])))
    ensures Stands(s, i, c, rest)
  {
    c, rest := if Valid(Blank(s[i])) then Blank(s[i]) else Sign(s[i]), s[i + 1..];
    assert s[i..] == [s[i]] + s[i + 1..];
  }

  /** Where a text goes on, it goes on with a chunk or is stuck. */
  lemma ChunkOrStuck(s: string, i: nat) returns (c: Chunk, rest: string, e: LexError, at: nat)
    requires i < |s|
    ensures Stands(s, i, c, rest) || Stuck(s[i..], e, at)
  {
    hide Stands, Letter, Digit;
    c, rest, e, at := Blank(' '), "", UnexpectedChar, 0;
    var d := s[i];
    if Valid(Blank(d)) || Valid(Sign(d)) {
      c, rest := OneSign(s, i);
    } else if Letter(d) || d == '_' {
      c, rest := NameOf(s, i);
    } else if d == '-' || Digit(d) {
      c, rest := NumeralOf(s, i);
    } else if d == '"' || d == '\'' {
      c, rest := QuoteOf(s, i);
      e := UnterminatedString;
    } else if d == '/' && i + 1 < |s| && s[i + 1] == '/' {
      c, rest := LineOf(s, i);
    } else if d == '/' && i + 1 < |s| && s[i + 1] == '*' {
      c, rest := BlockChunk(s, i);
      e, at := UnterminatedComment, if i + 2 == |s| then 2 else |s| - 1 - i;
    } else {
      ForeignHere(s, i);
    }
  }

  lemma ForeignHere(s: string, i: nat)
    requires i < |s| && !Valid(Blank(s[i])) && !Valid(Sign(s[i])) && !Letter(s[i]) && s[i] != '_'
    requires s[i] != '-' && !Digit(s[i]) && s[i] != '"' && s[i] != '\''
    requires s[i] == '/' && i + 1 < |s| ==> s[i + 1] != '/' && s[i + 1] != '*'
    ensures Stuck(s[i..], UnexpectedChar, 0)
  {
    hide Letter, Digit;
    var t := s[i..];
    assert t[0] == s[i] && (|t| > 1 ==> t[1] == s[i + 1]);
    assert "//"[0] == "/*"[0] == '/' && "//"[1] == '/' && "/*"[1] == '*';
  }

  // ---------------------------------------------------------------- where reading stops

  lemma StuckComment(s: string, i: nat, at: nat)
    requires i <= |s| && Stuck(s[i..], UnterminatedComment, at)
    ensures i < |s| && StepAt(s, i) == Fail(UnterminatedComment, i + at)
  {
    hide SpanEnd, BlockEnd, StringEnd;
    var t := s[i..];
    assert t[..2] == "/*" && s[i] == t[0] == "/*"[0] == '/' && s[i + 1] == t[1] == "/*"[1] == '*';
    var r := t[2..];
    forall j | i + 2 <= j && j + 1 < |s|
      ensures !(s[j] == '*' && s[j + 1] == '/')
    {
      assert r[j - i - 2] == s[j] && r[j - i - 2 + 1] == s[j + 1];
    }
    BlockNone(s, i + 2);
  }

  lemma StuckString(s: string, i: nat)
    requires i <= |s| && Stuck(s[i..], UnterminatedString, 0)
    ensures i < |s| && StepAt(s, i) == Fail(UnterminatedString, i)
  {
    hide SpanEnd, BlockEnd, StringEnd, Unended;
    assert s[i..][0] == s[i] && s[i..][1..] == s[i + 1..];
    StringNone(s, i + 1, s[i]);
  }

  lemma StuckChar(s: string, i: nat)
    requires i <= |s| && Stuck(s[i..], UnexpectedChar, 0)
    ensures i < |s| && StepAt(s, i) == Fail(UnexpectedChar, i)
  {
    hide SpanEnd, BlockEnd, StringEnd, IsLetter, IsPunct, Letter;
    var t := s[i..];
    assert t[0] == s[i] && (|t| > 1 ==> t[1] == s[i + 1]);
    Classes(s[i]);
    assert |t| > 1 ==> t[..2] == [t[0], t[1]];
  }

  lemma StuckStep(s: string, i: nat, e: LexError, at: nat)
    requires i <= |s| && Stuck(s[i..], e, at)
    ensures i < |s| && StepAt(s, i) == Fail(e, i + at)
  {
    hide StepAt;
    match e
    case UnterminatedComment => StuckComment(s, i, at);
    case UnterminatedString => StuckString(s, i);
    case UnexpectedChar => StuckChar(s, i);
  }

  // ---------------------------------------------------------------- the whole text

  lemma PrefixedJoin(a: seq<Lexeme>, b: seq<Lexeme>, r: Result<seq<Lexeme>, Stop>)
    ensures Prefixed(a, Prefixed(b, r)) == Prefixed(a + b, r) && Prefixed([], r) == r
  {
    if r.Ok? {
      assert a + (b + r.value) == (a + b) + r.value && [] + r.value == r.value;
    }
  }

  lemma LexOver(s: string, i: nat, c: Chunk)
    requires i < |s| && StepAt(s, i) == StepOver(c, i) && i + |ChunkText(c)| <= |s|
    ensures LexAt(s, i) == Prefixed(TokenOf(c, i), LexAt(s, i + |ChunkText(c)|))
  {
    hide StepAt, ChunkText;
    PrefixedJoin([], [], LexAt(s, i));
  }

  /** The first of the chunks is read over. */
  lemma FirstRead(s: string, i: nat, cs: seq<Chunk>, rest: string)
    requires i <= |s| && s[i..] == TextOf(cs) + rest && Layout(cs, rest) && cs != []
    ensures var n := i + |ChunkText(cs[0])|;
      && n <= |s| && s[n..] == TextOf(cs[1..]) + rest && Layout(cs[1..], rest)
      && |TextOf(cs)| == |ChunkText(cs[0])| + |TextOf(cs[1..])|
      && LexAt(s, i) == Prefixed(TokenOf(cs[0], i), LexAt(s, n))
  {
    hide StepAt, Valid, Follows, ChunkText, LexAt, Prefixed, TokenOf, StepOver;
    var c, more := cs[0], TextOf(cs[1..]) + rest;
    assert TextOf(cs) + rest == ChunkText(c) + more;
    ChunkStep(s, i, c, more);
    Cells(s, i, ChunkText(c), more);
    LexOver(s, i, c);
  }

  /** Chunks are read as what they are. */
  lemma {:induction false} ChunksRead(s: string, i: nat, cs: seq<Chunk>, rest: string)
    requires i <= |s| && s[i..] == TextOf(cs) + rest && Layout(cs, rest)
    ensures var n := i + |TextOf(cs)|; n <= |s| && LexAt(s, i) == Prefixed(LexemesOf(cs, i), LexAt(s, n))
    decreases cs
  {
    hide Layout, ChunkText, LexAt, TokenOf, Prefixed;
    if cs == [] {
      PrefixedJoin([], [], LexAt(s, i));
    } else {
      FirstRead(s, i, cs, rest);
      var n := i + |ChunkText(cs[0])|;
      ChunksRead(s, n, cs[1..], rest);
      hide TextOf;
      PrefixedJoin(TokenOf(cs[0], i), LexemesOf(cs[1..], n), LexAt(s, n + |TextOf(cs[1..])|));
    }
  }

  /** Every text is chunks up to its end, or up to where it is stuck. */
  lemma {:induction false} ChunksOf(s: string, i: nat)
    returns (cs: seq<Chunk>, rest: string, e: LexError, at: nat)
    requires i <= |s|
    ensures s[i..] == TextOf(cs) + rest && Layout(cs, rest)
    ensures rest == "" || Stuck(rest, e, at)
    decreases |s| - i
  {
    hide Stuck, Valid, Follows, ChunkText, StepAt;
    cs, rest, e, at := [], s[i..], UnexpectedChar, 0;
    if i < |s| {
      var c, more;
      c, more, e, at := ChunkOrStuck(s, i);
      if Stands(s, i, c, more) {
        ChunkStep(s, i, c, more);
        Cells(s, i, ChunkText(c), more);
        var ds;
        ds, rest, e, at := ChunksOf(s, i + |ChunkText(c)|);
        cs := [c] + ds;
        assert cs[1..] == ds;
        assert TextOf(cs) + rest == ChunkText(c) + (TextOf(ds) + rest);
      } else {
        assert TextOf(cs) + rest == rest;
      }
    }
  }

  /** A text is read without an error, and as these tokens at these places, if and only
      if it is chunks whose tokens they are. */
  lemma ReadIff(s: string, ls: seq<Lexeme>)
    ensures LexAt(s, 0) == Ok(ls) <==> exists cs :: Layout(cs, "") && TextOf(cs) == s && LexemesOf(cs, 0) == ls
  {
    hide Stuck, Layout, TextOf, LexemesOf, StepAt;
    assert s[0..] == s;
    forall cs | Layout(cs, "") && TextOf(cs) == s
      ensures LexAt(s, 0) == Ok(LexemesOf(cs, 0))
    {
      assert TextOf(cs) + "" == s;
      ChunksRead(s, 0, cs, "");
      assert LexemesOf(cs, 0) + [] == LexemesOf(cs, 0);
    }
    if LexAt(s, 0) == Ok(ls) {
      var cs, rest, e, at := ChunksOf(s, 0);
      ChunksRead(s, 0, cs, rest);
      if rest != "" {
        StuckBehind(s, cs, rest, e, at);
      }
      assert TextOf(cs) + "" == TextOf(cs);
      assert Layout(cs, "") && TextOf(cs) == s && LexemesOf(cs, 0) == ls;
    }
  }

  lemma StuckBehind(s: string, cs: seq<Chunk>, rest: string, e: LexError, at: nat)
    requires s == TextOf(cs) + rest && Layout(cs, rest) && Stuck(rest, e, at)
    ensures LexAt(s, 0) == Err(Stop(e, |TextOf(cs)| + at))
  {
    hide Stuck, Layout, TextOf, LexemesOf, StepAt;
    assert s[0..] == s;
    ChunksRead(s, 0, cs, rest);
    var n := |TextOf(cs)|;
    assert s[n..] == rest;
    StuckStep(s, n, e, at);
  }

  /** A text is refused with an error at a place if and only if it is chunks up to
      something that is stuck in this way. */
  lemma RefusedIff(s: string, e: LexError, k: nat)
    ensures LexAt(s, 0) == Err(Stop(e, k)) <==>
      exists cs, rest, at: nat ::
        Layout(cs, rest) && TextOf(cs) + rest == s && Stuck(rest, e, at) && k == |TextOf(cs)| + at
  {
    hide Stuck, Layout, TextOf, LexemesOf, StepAt;
    assert s[0..] == s;
    forall cs, rest, at: nat | Layout(cs, rest) && TextOf(cs) + rest == s && Stuck(rest, e, at)
      ensures LexAt(s, 0) == Err(Stop(e, |TextOf(cs)| + at))
    {
      StuckBehind(s, cs, rest, e, at);
    }
    if LexAt(s, 0) == Err(Stop(e, k)) {
      var cs, rest, f, at := ChunksOf(s, 0);
      if rest == "" {
        ChunksRead(s, 0, cs, rest);
      } else {
        StuckBehind(s, cs, rest, f, at);
      }
    }
  }

  // ---------------------------------------------------------------- printed texts

  /** The token texts that may be printed are the chunks that are tokens. */
  lemma TokenTextIff(x: string, lex: Lex)
    ensures Theory.IsTokenText(x, lex) <==> exists c :: Valid(c) && ChunkText(c) == x && ChunkLex(c) == Some(lex)
  {
    hide StepAt, Valid, ChunkText, Stuck;
    assert x[0..] == x;
    forall c | Valid(c) && ChunkText(c) == x && ChunkLex(c) == Some(lex)
      ensures Theory.IsTokenText(x, lex)
    {
      assert x == ChunkText(c) + "";
      ChunkStep(x, 0, c, "");
    }
    if Theory.IsTokenText(x, lex) {
      var c, rest, e, at := ChunkOrStuck(x, 0);
      if Stands(x, 0, c, rest) {
        ChunkStep(x, 0, c, rest);
        Cells(x, 0, ChunkText(c), rest);
        assert x == ChunkText(c);
      } else {
        StuckStep(x, 0, e, at);
      }
    }
  }

  lemma FollowsIff(c: Chunk, y: string)
    requires Valid(c) && ChunkLex(c).Some?
    ensures ChunkText(c) != "" && (Theory.MayFollow(ChunkText(c), y) <==> Follows(c, y))
  {
    hide Letter, IsLetter, StringBody, SpanEnd;
    var d := ChunkText(c)[0];
    Classes(d);
    if y != "" {
      Classes(y[0]);
    }
    match c
    case Name(_) => LetterApart(d); NumberApart(d);
    case Numeral(_) => DigitApart(d);
    case Quote(_, _) => QuoteApart(d);
    case Sign(_) => SignApart(d);
  }

  lemma NumberApart(c: char)
    requires Letter(c) || c == '_'
    ensures c != '-' && !IsDigit(c)
  {
  }

  lemma QuoteApart(c: char)
    requires c == '"' || c == '\''
    ensures !IsIdentStart(c) && c != '-' && !IsDigit(c)
  {
  }

  /** Blanks and comments that are closed. */
  predicate Notes(cs: seq<Chunk>) {
    forall c :: c in cs ==> Valid(c) && ChunkLex(c) == None && (c.LineNote? ==> c.closed)
  }

  lemma {:induction false} NotesFill(f: string, i: nat, cs: seq<Chunk>)
    requires i <= |f| && f[i..] == TextOf(cs) && Notes(cs)
    ensures Theory.FillerFrom(f, i)
    decreases cs
  {
    hide Valid, ChunkText, StepAt;
    if cs != [] {
      var c, rest := cs[0], TextOf(cs[1..]);
      assert c in cs;
      ChunkStep(f, i, c, rest);
      Cells(f, i, ChunkText(c), rest);
      var n := i + |ChunkText(c)|;
      NotesFill(f, n, cs[1..]);
      FillBy(f, i, c, rest);
    }
  }

  lemma FillBy(f: string, i: nat, c: Chunk, rest: string)
    requires Stands(f, i, c, rest) && i < |f| && StepAt(f, i) == Skip(i + |ChunkText(c)|)
    requires ChunkLex(c) == None && (c.LineNote? ==> c.closed)
    requires i + |ChunkText(c)| <= |f| && Theory.FillerFrom(f, i + |ChunkText(c)|)
    ensures Theory.FillerFrom(f, i)
  {
    hide SpanEnd, BlockEnd, StringEnd, Theory.FillerFrom;
    var t := ChunkText(c);
    Cells(f, i, t, rest);
    assert f[i] == f[i + 0] == t[0];
    if c.LineNote? {
      assert f[i + (|t| - 1)] == t[|t| - 1] == '\n';
      var e := SpanEnd(f, i + 2, NotNewline);
      assert !NotNewline(f[i + |t| - 1]);
    }
    FillerRule(f, i);
  }

  lemma FillerRule(f: string, i: nat)
    requires i < |f|
    ensures IsSpace(f[i]) && Theory.FillerFrom(f, i + 1) ==> Theory.FillerFrom(f, i)
    ensures Theory.StartsLineComment(f, i) ==>
      var n := SpanEnd(f, i + 2, NotNewline); n < |f| && Theory.FillerFrom(f, n + 1) ==> Theory.FillerFrom(f, i)
    ensures f[i] == '/' && i + 1 < |f| && f[i + 1] == '*' ==>
      var n := BlockEnd(f, i + 2); n.Some? && Theory.FillerFrom(f, n.value) ==> Theory.FillerFrom(f, i)
  {
  }

  lemma {:induction false} NotesOf(f: string, i: nat) returns (cs: seq<Chunk>)
    requires i <= |f| && Theory.FillerFrom(f, i)
    ensures f[i..] == TextOf(cs) && Notes(cs)
    decreases |f| - i
  {
    hide Valid, ChunkText, StepAt, Stuck, Theory.FillerFrom;
    cs := [];
    if i < |f| {
      Theory.FillerStep(f, i);
      var c, rest, e, at := ChunkOrStuck(f, i);
      if !Stands(f, i, c, rest) {
        StuckStep(f, i, e, at);
      }
      ChunkStep(f, i, c, rest);
      Cells(f, i, ChunkText(c), rest);
      if c.LineNote? {
        NoteClosed(f, i, c, rest);
      }
      var ds := NotesOf(f, i + |ChunkText(c)|);
      cs := [c] + ds;
      assert cs[1..] == ds;
    }
  }

  lemma NoteClosed(f: string, i: nat, c: Chunk, rest: string)
    requires Stands(f, i, c, rest) && c.LineNote? && Theory.FillerFrom(f, i)
    ensures c.closed
  {
    hide SpanEnd, BlockEnd;
    var t := ChunkText(c);
    Cells(f, i, t, rest);
    assert f[i] == f[i + 0] == '/' && f[i + 1] == t[1] == '/';
    assert forall k :: 0 <= k < |c.body| ==> t[k + 2] == c.body[k];
    assert forall k :: 0 <= k < |c.body| ==> c.body[k] != '\n';
    var e := SpanEnd(f, i + 2, NotNewline);
    assert e < |f| && f[e] == '\n';
    assert f[i + (e - i)] == '\n';
  }

  /** The fillers between printed tokens are runs of blanks and closed comments. */
  lemma FillerIff(f: string)
    ensures Theory.Filler(f) <==> exists cs :: Notes(cs) && TextOf(cs) == f
  {
    hide Notes, TextOf, Theory.FillerFrom;
    assert f[0..] == f;
    forall cs | Notes(cs) && TextOf(cs) == f
      ensures Theory.Filler(f)
    {
      NotesFill(f, 0, cs);
    }
    if Theory.Filler(f) {
      var cs := NotesOf(f, 0);
    }
  }
}
