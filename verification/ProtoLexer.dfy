/**
 The tokenizer of cmd/protogen-tesla/parser.go.

 A character stands for one source byte, so the letter test below is Go's
 `unicode.IsLetter` restricted to the Latin-1 code points a byte can denote.

 `LexAt` is the reference lexer: a recursion over offsets with no line or
 column counters. Positions are defined by counting newlines (`Line`, `Col`).
 The method `Tokenize` is the original loop, with its running `i`, `line` and
 `col`, proved equal to it.
*/
module ProtoLexer {
  import opened Wrappers

  datatype Kind = Ident | Number | Str | Punct | EOF

  /** What the parser sees of a token. */
  datatype Lex = Lex(kind: Kind, value: string)

  /** A token as the tokenizer emits it. */
  datatype Token = Token(lex: Lex, line: nat, col: nat)

  /** A token and the half-open source span it was read from. */
  datatype Lexeme = Lexeme(lex: Lex, start: nat, end: nat)

  datatype LexError = UnterminatedComment | UnterminatedString | UnexpectedChar

  /** What went wrong, and the line and column the message names. */
  datatype LexFailure = LexFailure(error: LexError, line: nat, col: nat)

  // ---------------------------------------------------------------- characters

  predicate IsSpace(c: char) {
    c == ' ' || c == '\t' || c == '\r' || c == '\n'
  }

  predicate IsDigit(c: char) {
    '0' <= c <= '9'
  }

  predicate IsLetter(c: char) {
    || 'a' <= c <= 'z'
    || 'A' <= c <= 'Z'
    || c as int in {0xAA, 0xB5, 0xBA}
    || (0xC0 <= c as int <= 0xFF && c as int != 0xD7 && c as int != 0xF7)
  }

  predicate IsIdentStart(c: char) {
    c == '_' || IsLetter(c)
  }

  /** A character the identifier loop swallows: `isIdentPart` or a dot. */
  predicate IsIdentTail(c: char) {
    c == '_' || IsLetter(c) || IsDigit(c) || c == '.'
  }

  /** A character the number loop swallows. */
  predicate IsNumberTail(c: char) {
    IsDigit(c) || c == '.'
  }

  predicate IsPunct(c: char) {
    c in "{}()[]<>=;,"
  }

  predicate NotNewline(c: char) {
    c != '\n'
  }

  // ---------------------------------------------------------------- one step

  /** The first offset from `i` on whose character does not satisfy `p`. */
  function SpanEnd(s: string, i: nat, p: char -> bool): (n: nat)
    requires i <= |s|
    ensures i <= n <= |s|
    ensures forall k :: i <= k < n ==> p(s[k])
    ensures n < |s| ==> !p(s[n])
    decreases |s| - i
  {
    if i == |s| || !p(s[i]) then i else SpanEnd(s, i + 1, p)
  }

  /** The offset just past the first `*` `/` from `i` on. */
  function BlockEnd(s: string, i: nat): (r: Option<nat>)
    requires i <= |s|
    ensures r.Some? ==> i + 2 <= r.value <= |s|
    decreases |s| - i
  {
    if i + 1 >= |s| then None
    else if s[i] == '*' && s[i + 1] == '/' then Some(i + 2)
    else BlockEnd(s, i + 1)
  }

  /** The offset of the closing quote from `i` on, stepping over backslash pairs. */
  function StringEnd(s: string, i: nat, quote: char): (r: Option<nat>)
    requires i <= |s|
    ensures r.Some? ==> i <= r.value < |s| && s[r.value] == quote
    decreases |s| - i
  {
    if i == |s| then None
    else if s[i] == quote then Some(i)
    else if s[i] == '\\' && i + 1 < |s| then StringEnd(s, i + 2, quote)
    else StringEnd(s, i + 1, quote)
  }

  /** What the scanner does at an offset: skip to `next`, read a token that
      ends at `next`, or fail at offset `at`. */
  datatype Step = Skip(next: nat) | Emit(lex: Lex, next: nat) | Fail(error: LexError, at: nat)

  /** The end of a line comment whose text starts at `i`, newline included. */
  function LineCommentEnd(s: string, i: nat): (n: nat)
    requires i <= |s|
    ensures i <= n <= |s|
  {
    var n := SpanEnd(s, i, NotNewline);
    if n < |s| then n + 1 else n
  }

  function StepAt(s: string, i: nat): (st: Step)
    requires i < |s|
    ensures !st.Fail? ==> i < st.next <= |s|
    ensures st.Fail? ==> i <= st.at <= |s|
    ensures st.Emit? ==> st.lex.kind != EOF
  {
    var c := s[i];
    if IsSpace(c) then Skip(i + 1)
    else if c == '/' && i + 1 < |s| && s[i + 1] == '/' then Skip(LineCommentEnd(s, i + 2))
    else if c == '/' && i + 1 < |s| && s[i + 1] == '*' then
      match BlockEnd(s, i + 2)
      case Some(n) => Skip(n)
      case None => Fail(UnterminatedComment, if i + 2 == |s| then i + 2 else |s| - 1)
    else if c == '"' || c == '\'' then
      match StringEnd(s, i + 1, c)
      case Some(n) => Emit(Lex(Str, s[i + 1..n]), n + 1)
      case None => Fail(UnterminatedString, i)
    else if IsIdentStart(c) then
      var n := SpanEnd(s, i, IsIdentTail);
      Emit(Lex(Ident, s[i..n]), n)
    else if c == '-' || IsDigit(c) then
      var n := SpanEnd(s, i + 1, IsNumberTail);
      Emit(Lex(Number, s[i..n]), n)
    else if IsPunct(c) then Emit(Lex(Punct, [c]), i + 1)
    else Fail(UnexpectedChar, i)
  }

  /** A failure and the source offset it is reported at. */
  datatype Stop = Stop(error: LexError, at: nat)

  /** `before` followed by what a lexing result still brings. */
  function Prefixed(before: seq<Lexeme>, r: Result<seq<Lexeme>, Stop>): Result<seq<Lexeme>, Stop> {
    match r
    case Ok(ls) => Ok(before + ls)
    case Err(e) => Err(e)
  }

  /** The reference lexer: the lexemes of `s` from offset `i` on. */
  function LexAt(s: string, i: nat): (r: Result<seq<Lexeme>, Stop>)
    requires i <= |s|
    ensures r.Ok? ==> forall l :: l in r.value ==> i <= l.start < l.end <= |s|
    ensures r.Err? ==> i <= r.error.at <= |s|
    decreases |s| - i
  {
    if i == |s| then Ok([])
    else match StepAt(s, i)
      case Skip(n) => LexAt(s, n)
      case Emit(lex, n) => Prefixed([Lexeme(lex, i, n)], LexAt(s, n))
      case Fail(e, k) => Err(Stop(e, k))
  }

  // ---------------------------------------------------------------- positions

  /** 1-based line of offset `i`: one more than the newlines before it. */
  function Line(src: string, i: nat): nat
    requires i <= |src|
  {
    if i == 0 then 1 else Line(src, i - 1) + if src[i - 1] == '\n' then 1 else 0
  }

  /** 1-based column of offset `i`: the distance from the last newline before it. */
  function Col(src: string, i: nat): nat
    requires i <= |src|
  {
    if i == 0 || src[i - 1] == '\n' then 1 else Col(src, i - 1) + 1
  }

  function TokenAt(src: string, lex: Lex, i: nat): Token
    requires i <= |src|
  {
    Token(lex, Line(src, i), Col(src, i))
  }

  function TokensOf(src: string, ls: seq<Lexeme>): (ts: seq<Token>)
    requires forall l :: l in ls ==> l.start <= |src|
    ensures |ts| == |ls|
  {
    seq(|ls|, k requires 0 <= k < |ls| => TokenAt(src, ls[k].lex, ls[k].start))
  }

  const EOF_LEX := Lex(EOF, "")

  /** What `tokenize` returns for `src`. */
  function TokenizeSpec(src: string): Result<seq<Token>, LexFailure> {
    match LexAt(src, 0)
    case Ok(ls) => Ok(TokensOf(src, ls) + [TokenAt(src, EOF_LEX, |src|)])
    case Err(stop) => Err(LexFailure(stop.error, Line(src, stop.at), Col(src, stop.at)))
  }

  // ---------------------------------------------------------------- the loop

  /** The `advance` closure. Out of range it returns early and leaves `i`
      where it was (having moved line and col); in range the three stay
      in step with the text. */
  method Advance(src: string, i: nat, line: nat, col: nat, n: nat) returns (next: nat, nextLine: nat, nextCol: nat)
    requires i <= |src|
    requires line == Line(src, i) && col == Col(src, i)
    ensures next == if i + n <= |src| then i + n else i
    ensures i + n <= |src| ==> nextLine == Line(src, next) && nextCol == Col(src, next)
  {
    next, nextLine, nextCol := i, line, col;
    var k := 0;
    while k < n
      invariant 0 <= k <= n && i + k <= |src|
      invariant nextLine == Line(src, i + k) && nextCol == Col(src, i + k)
    {
      if i + k >= |src| {
        return;
      }
      if src[i + k] == '\n' {
        nextLine, nextCol := nextLine + 1, 1;
      } else {
        nextCol := nextCol + 1;
      }
      k := k + 1;
    }
    next := i + n;
  }

  /** Moves over the characters satisfying `p`, as the comment, identifier
      and number loops do. */
  method AdvanceWhile(src: string, i: nat, line: nat, col: nat, p: char -> bool)
    returns (next: nat, nextLine: nat, nextCol: nat)
    requires i <= |src|
    requires line == Line(src, i) && col == Col(src, i)
    ensures next == SpanEnd(src, i, p)
    ensures nextLine == Line(src, next) && nextCol == Col(src, next)
  {
    next, nextLine, nextCol := i, line, col;
    while next < |src| && p(src[next])
      invariant i <= next <= |src|
      invariant SpanEnd(src, next, p) == SpanEnd(src, i, p)
      invariant nextLine == Line(src, next) && nextCol == Col(src, next)
    {
      next, nextLine, nextCol := Advance(src, next, nextLine, nextCol, 1);
    }
  }

  /** The block comment loop, entered just past the opening `/` `*`. `ok` is
      false when the text ends first; `next` is then where the loop gave up. */
  method SkipBlock(src: string, i: nat, line: nat, col: nat) returns (ok: bool, next: nat, nextLine: nat, nextCol: nat)
    requires i <= |src|
    requires line == Line(src, i) && col == Col(src, i)
    ensures next <= |src|
    ensures ok == BlockEnd(src, i).Some?
    ensures next == if ok then BlockEnd(src, i).value else if i == |src| then i else |src| - 1
    ensures nextLine == Line(src, next) && nextCol == Col(src, next)
  {
    next, nextLine, nextCol := i, line, col;
    while next + 1 < |src| && !(src[next] == '*' && src[next + 1] == '/')
      invariant i <= next <= |src|
      invariant next == i || next < |src|
      invariant nextLine == Line(src, next) && nextCol == Col(src, next)
      invariant BlockEnd(src, i) == BlockEnd(src, next)
    {
      next, nextLine, nextCol := Advance(src, next, nextLine, nextCol, 1);
    }
    if next + 1 >= |src| {
      return false, next, nextLine, nextCol;
    }
    next, nextLine, nextCol := Advance(src, next, nextLine, nextCol, 2);
    ok := true;
  }

  /** The string literal loop, entered just past the opening quote; on success
      `next` is the offset of the closing quote. */
  method ReadString(src: string, i: nat, line: nat, col: nat, quote: char)
    returns (ok: bool, buf: string, next: nat, nextLine: nat, nextCol: nat)
    requires i <= |src|
    requires line == Line(src, i) && col == Col(src, i)
    ensures i <= next <= |src|
    ensures ok == StringEnd(src, i, quote).Some?
    ensures ok ==> next == StringEnd(src, i, quote).value < |src| && buf == src[i..next]
    ensures nextLine == Line(src, next) && nextCol == Col(src, next)
  {
    next, nextLine, nextCol := i, line, col;
    buf := "";
    while next < |src| && src[next] != quote
      invariant i <= next <= |src|
      invariant nextLine == Line(src, next) && nextCol == Col(src, next)
      invariant buf == src[i..next]
      invariant StringEnd(src, i, quote) == StringEnd(src, next, quote)
    {
      if src[next] == '\\' && next + 1 < |src| {
        buf := buf + [src[next]] + [src[next + 1]];
        next, nextLine, nextCol := Advance(src, next, nextLine, nextCol, 2);
        continue;
      }
      buf := buf + [src[next]];
      next, nextLine, nextCol := Advance(src, next, nextLine, nextCol, 1);
    }
    ok := next < |src|;
  }

  /** Line comments are read up to their newline, which the next turn skips. */
  lemma LineCommentStep(src: string, i: nat)
    requires i + 1 < |src| && src[i] == '/' && src[i + 1] == '/'
    ensures SpanEnd(src, i, NotNewline) > i
    ensures LexAt(src, i) == LexAt(src, SpanEnd(src, i, NotNewline))
  {
    assert SpanEnd(src, i, NotNewline) == SpanEnd(src, i + 1, NotNewline) == SpanEnd(src, i + 2, NotNewline);
  }

  /** The branches of the loop that read a token: string, identifier, number,
      punctuation, or an unexpected character. */
  method ReadToken(src: string, i: nat, line: nat, col: nat)
    returns (r: Result<Lex, LexFailure>, next: nat, nextLine: nat, nextCol: nat)
    requires i < |src| && !StepAt(src, i).Skip?
    requires StepAt(src, i).Fail? ==> StepAt(src, i).error != UnterminatedComment
    requires line == Line(src, i) && col == Col(src, i)
    ensures next <= |src| && nextLine == Line(src, next) && nextCol == Col(src, next)
    ensures r.Ok? ==> StepAt(src, i) == Emit(r.value, next)
    ensures r.Err? ==> StepAt(src, i) == Fail(r.error.error, i) && r.error.line == line && r.error.col == col
  {
    hide Line, Col, SpanEnd, BlockEnd, IsSpace, IsDigit, IsPunct, IsLetter;
    var c := src[i];
    next, nextLine, nextCol := i, line, col;
    if c == '"' || c == '\'' {
      next, nextLine, nextCol := Advance(src, next, nextLine, nextCol, 1);
      var ok, buf;
      ok, buf, next, nextLine, nextCol := ReadString(src, next, nextLine, nextCol, c);
      if !ok {
        return Err(LexFailure(UnterminatedString, line, col)), next, nextLine, nextCol;
      }
      next, nextLine, nextCol := Advance(src, next, nextLine, nextCol, 1);
      r := Ok(Lex(Str, buf));
    } else if IsIdentStart(c) {
      next, nextLine, nextCol := AdvanceWhile(src, next, nextLine, nextCol, IsIdentTail);
      r := Ok(Lex(Ident, src[i..next]));
    } else if c == '-' || IsDigit(c) {
      if c == '-' {
        next, nextLine, nextCol := Advance(src, next, nextLine, nextCol, 1);
      }
      next, nextLine, nextCol := AdvanceWhile(src, next, nextLine, nextCol, IsNumberTail);
      r := Ok(Lex(Number, src[i..next]));
    } else if IsPunct(c) {
      next, nextLine, nextCol := Advance(src, next, nextLine, nextCol, 1);
      r := Ok(Lex(Punct, [c]));
    } else {
      r := Err(LexFailure(UnexpectedChar, line, col));
    }
  }

  /** `tokenize`: the scanning loop with its running line and column. */
  method Tokenize(src: string) returns (r: Result<seq<Token>, LexFailure>)
    ensures r == TokenizeSpec(src)
  {
    hide StringEnd, TokensOf, BlockEnd, SpanEnd, StepAt, LexAt, Line, Col;
    AtStart(src);
    var out: seq<Token> := [];
    var i, line, col := 0, 1, 1;
    ghost var ls: seq<Lexeme> := [];
    PrefixedNone(LexAt(src, 0));
    while i < |src|
      invariant i <= |src|
      invariant line == Line(src, i) && col == Col(src, i)
      invariant forall l :: l in ls ==> l.start <= |src|
      invariant out == TokensOf(src, ls)
      invariant Prefixed(ls, LexAt(src, i)) == LexAt(src, 0)
      decreases |src| - i
    {
      var c := src[i];
      LexStep(src, i);
      if IsSpace(c) {
        i, line, col := Advance(src, i, line, col, 1);
        continue;
      }
      if c == '/' && i + 1 < |src| && src[i + 1] == '/' {
        LineCommentStep(src, i);
        i, line, col := AdvanceWhile(src, i, line, col, NotNewline);
        continue;
      }
      if c == '/' && i + 1 < |src| && src[i + 1] == '*' {
        i, line, col := Advance(src, i, line, col, 2);
        var ok;
        ok, i, line, col := SkipBlock(src, i, line, col);
        if !ok {
          return Err(LexFailure(UnterminatedComment, line, col));
        }
        continue;
      }
      var startLine, startCol, start := line, col, i;
      var token;
      token, i, line, col := ReadToken(src, i, line, col);
      if token.Err? {
        return Err(token.error);
      }
      EmitStep(src, ls, start, token.value, i);
      out := out + [Token(token.value, startLine, startCol)];
      ls := ls + [Lexeme(token.value, start, i)];
    }
    LexEnd(src);
    assert ls + [] == ls;
    out := out + [Token(EOF_LEX, line, col)];
    return Ok(out);
  }

  lemma AtStart(src: string)
    ensures Line(src, 0) == 1 && Col(src, 0) == 1 && TokensOf(src, []) == []
  {
  }

  lemma LexEnd(src: string)
    ensures LexAt(src, |src|) == Ok([])
  {
  }

  /** What the reference lexer does at an offset, by the branch the loop takes there. */
  lemma LexStep(src: string, i: nat)
    requires i < |src|
    ensures var c := src[i]; var block := c == '/' && i + 1 < |src| && src[i + 1] == '*';
      && (IsSpace(c) ==> LexAt(src, i) == LexAt(src, i + 1))
      && (block && BlockEnd(src, i + 2).Some? ==> LexAt(src, i) == LexAt(src, BlockEnd(src, i + 2).value))
      && (block && BlockEnd(src, i + 2) == None ==>
           LexAt(src, i) == Err(Stop(UnterminatedComment, if i + 2 == |src| then i + 2 else |src| - 1)))
      && (!IsSpace(c) && !block && !(c == '/' && i + 1 < |src| && src[i + 1] == '/') ==>
           && !StepAt(src, i).Skip?
           && (StepAt(src, i).Fail? ==>
                 StepAt(src, i).error != UnterminatedComment
                 && LexAt(src, i) == Err(Stop(StepAt(src, i).error, StepAt(src, i).at))))
  {
    hide StringEnd, BlockEnd, SpanEnd;
  }

  /** The loop invariant of `Tokenize` over one token. */
  lemma EmitStep(src: string, ls: seq<Lexeme>, start: nat, lex: Lex, next: nat)
    requires forall l :: l in ls ==> l.start <= |src|
    requires start < |src| && StepAt(src, start) == Emit(lex, next)
    ensures TokensOf(src, ls + [Lexeme(lex, start, next)]) == TokensOf(src, ls) + [TokenAt(src, lex, start)]
    ensures Prefixed(ls, LexAt(src, start)) == Prefixed(ls + [Lexeme(lex, start, next)], LexAt(src, next))
  {
    hide StepAt, LexAt, TokenAt;
    EmitLex(src, start, lex, next);
    if LexAt(src, next).Ok? {
      var rest := LexAt(src, next).value;
      assert ls + ([Lexeme(lex, start, next)] + rest) == ls + [Lexeme(lex, start, next)] + rest;
    }
  }

  lemma EmitLex(src: string, start: nat, lex: Lex, next: nat)
    requires start < |src| && StepAt(src, start) == Emit(lex, next)
    ensures next <= |src| && LexAt(src, start) == Prefixed([Lexeme(lex, start, next)], LexAt(src, next))
  {
    hide StepAt;
  }

  lemma PrefixedNone(r: Result<seq<Lexeme>, Stop>)
    ensures Prefixed([], r) == r
  {
    assert r.Ok? ==> [] + r.value == r.value;
  }
}
