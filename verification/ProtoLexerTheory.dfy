/**
 What the lexer of cmd/protogen-tesla/parser.go promises: where tokens come
 from, that layout does not matter, and that printed tokens are read back.
*/
module ProtoLexerTheory {
  import opened Wrappers
  import opened ProtoLexer

  // ---------------------------------------------------------------- windows

  /** `w` is the part of `s` that starts at offset `a`. */
  predicate Window(s: string, a: nat, w: string) {
    a + |w| <= |s| && w == s[a..a + |w|]
  }

  function Min(a: int, b: int): int {
    if a <= b then a else b
  }

  lemma {:induction false} SpanWindow(s: string, a: nat, w: string, i: nat, p: char -> bool)
    requires Window(s, a, w) && i <= |w|
    ensures a + SpanEnd(w, i, p) == Min(SpanEnd(s, a + i, p), a + |w|)
    decreases |w| - i
  {
    if i < |w| {
      assert w[i] == s[a + i];
      SpanWindow(s, a, w, i + 1, p);
    }
  }

  lemma {:induction false} BlockWindow(s: string, a: nat, w: string, i: nat)
    requires Window(s, a, w) && i <= |w|
    ensures BlockEnd(w, i).Some? ==> BlockEnd(s, a + i) == Some(a + BlockEnd(w, i).value)
    ensures BlockEnd(s, a + i).Some? && BlockEnd(s, a + i).value <= a + |w| ==> BlockEnd(w, i).Some?
    decreases |w| - i
  {
    if i + 1 < |w| {
      assert w[i] == s[a + i] && w[i + 1] == s[a + i + 1];
      BlockWindow(s, a, w, i + 1);
    }
  }

  lemma {:induction false} StringWindow(s: string, a: nat, w: string, i: nat, quote: char)
    requires Window(s, a, w) && i <= |w|
    ensures StringEnd(w, i, quote).Some? ==> StringEnd(s, a + i, quote) == Some(a + StringEnd(w, i, quote).value)
    ensures StringEnd(s, a + i, quote).Some? && StringEnd(s, a + i, quote).value < a + |w|
            ==> StringEnd(w, i, quote).Some?
    decreases |w| - i
  {
    if i < |w| && w[i] != quote {
      assert w[i] == s[a + i];
      StringWindow(s, a, w, i + 1, quote);
      if i + 1 < |w| {
        StringWindow(s, a, w, i + 2, quote);
      }
    }
  }

  lemma SliceWindow(s: string, a: nat, w: string, i: nat, j: nat)
    requires Window(s, a, w) && i <= j <= |w|
    ensures w[i..j] == s[a + i..a + j]
  {
    assert forall k :: 0 <= k < j - i ==> w[i..j][k] == s[a + i..a + j][k];
  }

  function Shifted(st: Step, a: nat): Step {
    match st
    case Skip(n) => Skip(a + n)
    case Emit(lex, n) => Emit(lex, a + n)
    case Fail(e, k) => Fail(e, a + k)
  }

  predicate StartsLineComment(s: string, i: nat)
    requires i < |s|
  {
    s[i] == '/' && i + 1 < |s| && s[i + 1] == '/'
  }

  /** A chunk that begins at `i` and runs to the end of `w` is not continued by `c`. */
  predicate Closes(w: string, i: nat, c: char)
    requires i < |w|
  {
    && (StartsLineComment(w, i) ==> SpanEnd(w, i + 2, NotNewline) < |w|)
    && (IsIdentStart(w[i]) ==> !IsIdentTail(c))
    && (w[i] == '-' || IsDigit(w[i]) ==> !IsNumberTail(c))
  }

  /** The two texts agree on the character at `i` and on the comment openings there. */
  predicate SameHead(s: string, a: nat, w: string, i: nat)
    requires Window(s, a, w) && i < |w|
  {
    w[i] == s[a + i] && (i + 1 < |w| ==> w[i + 1] == s[a + i + 1])
  }

  lemma StringStep(s: string, a: nat, w: string, i: nat)
    requires Window(s, a, w) && i < |w| && (w[i] == '"' || w[i] == '\'')
    ensures !StepAt(w, i).Fail? ==> StepAt(s, a + i) == Shifted(StepAt(w, i), a)
    ensures !StepAt(s, a + i).Fail? && StepAt(s, a + i).next <= a + |w| ==> StepAt(s, a + i) == Shifted(StepAt(w, i), a)
  {
    assert SameHead(s, a, w, i);
    StringWindow(s, a, w, i + 1, w[i]);
    if StringEnd(w, i + 1, w[i]).Some? {
      SliceWindow(s, a, w, i + 1, StringEnd(w, i + 1, w[i]).value);
    }
  }

  lemma IdentStep(s: string, a: nat, w: string, i: nat)
    requires Window(s, a, w) && i < |w| && IsIdentStart(w[i])
    requires SpanEnd(w, i, IsIdentTail) < |w| || a + |w| == |s| || !IsIdentTail(s[a + |w|])
             || SpanEnd(s, a + i, IsIdentTail) <= a + |w|
    ensures StepAt(s, a + i) == Shifted(StepAt(w, i), a)
  {
    assert SameHead(s, a, w, i);
    SpanWindow(s, a, w, i, IsIdentTail);
    SliceWindow(s, a, w, i, SpanEnd(w, i, IsIdentTail));
  }

  lemma NumberStep(s: string, a: nat, w: string, i: nat)
    requires Window(s, a, w) && i < |w| && (w[i] == '-' || IsDigit(w[i]))
    requires SpanEnd(w, i + 1, IsNumberTail) < |w| || a + |w| == |s| || !IsNumberTail(s[a + |w|])
             || SpanEnd(s, a + i + 1, IsNumberTail) <= a + |w|
    ensures StepAt(s, a + i) == Shifted(StepAt(w, i), a)
  {
    hide SpanEnd, BlockEnd, StringEnd;
    assert SameHead(s, a, w, i);
    SpanWindow(s, a, w, i + 1, IsNumberTail);
    SliceWindow(s, a, w, i, SpanEnd(w, i + 1, IsNumberTail));
  }

  /** A step of the window is a step of the whole text, unless the text goes on
      with a character the chunk would swallow. */
  lemma StepWiden(s: string, a: nat, w: string, i: nat)
    requires Window(s, a, w) && i < |w| && !StepAt(w, i).Fail?
    requires StepAt(w, i).next < |w| || a + |w| == |s| || Closes(w, i, s[a + |w|])
    ensures StepAt(s, a + i) == Shifted(StepAt(w, i), a)
  {
    assert SameHead(s, a, w, i);
    if w[i] == '"' || w[i] == '\'' {
      StringStep(s, a, w, i);
    } else if IsIdentStart(w[i]) {
      IdentStep(s, a, w, i);
    } else if w[i] == '-' || IsDigit(w[i]) {
      NumberStep(s, a, w, i);
    } else if StartsLineComment(w, i) {
      SpanWindow(s, a, w, i + 2, NotNewline);
    } else if w[i] == '/' {
      BlockWindow(s, a, w, i + 2);
    }
  }

  /** A step of the text that stays inside the window is a step of the window. */
  lemma StepNarrow(s: string, a: nat, w: string, i: nat)
    requires Window(s, a, w) && i < |w|
    requires !StepAt(s, a + i).Fail? && StepAt(s, a + i).next <= a + |w|
    ensures StepAt(s, a + i) == Shifted(StepAt(w, i), a)
  {
    assert SameHead(s, a, w, i);
    if w[i] == '"' || w[i] == '\'' {
      StringStep(s, a, w, i);
    } else if IsIdentStart(w[i]) {
      IdentStep(s, a, w, i);
    } else if w[i] == '-' || IsDigit(w[i]) {
      NumberStep(s, a, w, i);
    } else if StartsLineComment(w, i) {
      SpanWindow(s, a, w, i + 2, NotNewline);
    } else if w[i] == '/' && i + 1 < |w| {
      BlockWindow(s, a, w, i + 2);
    }
  }

  // ---------------------------------------------------------------- kinds and values

  function LexesOf(ls: seq<Lexeme>): (r: seq<Lex>)
    ensures |r| == |ls|
  {
    seq(|ls|, k requires 0 <= k < |ls| => ls[k].lex)
  }

  /** The token kinds and values of a lexing result, or nothing if it failed. */
  function Kinds(r: Result<seq<Lexeme>, Stop>): Option<seq<Lex>> {
    match r
    case Ok(ls) => Some(LexesOf(ls))
    case Err(_) => None
  }

  /** The token kinds and values of a text. */
  function Lexes(s: string): Option<seq<Lex>> {
    Kinds(LexAt(s, 0))
  }

  function Cons(lex: Lex, rest: Option<seq<Lex>>): Option<seq<Lex>> {
    match rest
    case None => None
    case Some(ls) => Some([lex] + ls)
  }

  lemma KindsPrefixed(l: Lexeme, r: Result<seq<Lexeme>, Stop>)
    ensures Kinds(Prefixed([l], r)) == Cons(l.lex, Kinds(r))
  {
    if r.Ok? {
      assert LexesOf([l] + r.value) == [l.lex] + LexesOf(r.value);
    }
  }

  /** What is lexed from an offset depends only on the text from there on. */
  lemma {:induction false} LexSuffix(s: string, a: nat, i: nat)
    requires a + i <= |s|
    ensures Kinds(LexAt(s, a + i)) == Kinds(LexAt(s[a..], i))
    decreases |s| - i
  {
    hide StepAt, Closes;
    var w := s[a..];
    if i < |w| {
      if StepAt(w, i).Fail? {
        if !StepAt(s, a + i).Fail? {
          StepNarrow(s, a, w, i);
        }
      } else {
        StepWiden(s, a, w, i);
        var n := StepAt(w, i).next;
        LexSuffix(s, a, n);
        if StepAt(w, i).Emit? {
          KindsPrefixed(Lexeme(StepAt(w, i).lex, i, n), LexAt(w, n));
          KindsPrefixed(Lexeme(StepAt(w, i).lex, a + i, a + n), LexAt(s, a + n));
        }
      }
    }
  }

  // ---------------------------------------------------------------- filler

  /** From offset `i` on, `f` is whitespace and closed comments. */
  predicate FillerFrom(f: string, i: nat)
    requires i <= |f|
    decreases |f| - i
  {
    || i == |f|
    || (IsSpace(f[i]) && FillerFrom(f, i + 1))
    || (StartsLineComment(f, i)
        && SpanEnd(f, i + 2, NotNewline) < |f|
        && FillerFrom(f, SpanEnd(f, i + 2, NotNewline) + 1))
    || (f[i] == '/' && i + 1 < |f| && f[i + 1] == '*'
        && BlockEnd(f, i + 2).Some?
        && FillerFrom(f, BlockEnd(f, i + 2).value))
  }

  predicate Filler(f: string) {
    FillerFrom(f, 0)
  }

  lemma FillerStep(f: string, i: nat)
    requires i < |f| && FillerFrom(f, i)
    ensures StepAt(f, i).Skip? && FillerFrom(f, StepAt(f, i).next)
    ensures forall c :: Closes(f, i, c)
  {
  }

  /** Filler is read over, wherever it stands. */
  lemma {:induction false} FillerSkipped(s: string, a: nat, f: string, i: nat)
    requires Window(s, a, f) && i <= |f| && FillerFrom(f, i)
    ensures LexAt(s, a + i) == LexAt(s, a + |f|)
    decreases |f| - i
  {
    hide SpanEnd, BlockEnd, StringEnd, FillerFrom, Closes, StepAt;
    if i < |f| {
      FillerStep(f, i);
      StepWiden(s, a, f, i);
      FillerSkipped(s, a, f, StepAt(f, i).next);
    }
  }

  lemma FillerThen(f: string, y: string)
    requires Filler(f)
    ensures Lexes(f + y) == Lexes(y)
  {
    assert Window(f + y, 0, f);
    FillerSkipped(f + y, 0, f, 0);
    assert (f + y)[|f|..] == y;
    LexSuffix(f + y, |f|, 0);
  }

  // ---------------------------------------------------------------- printed tokens

  /** `x` alone is lexed as the one token `lex`. */
  predicate IsTokenText(x: string, lex: Lex) {
    x != "" && StepAt(x, 0) == Emit(lex, |x|)
  }

  /** The text `y` may directly follow the token text `x`. */
  predicate MayFollow(x: string, y: string)
    requires x != ""
  {
    y == "" || Closes(x, 0, y[0])
  }

  lemma TokenThen(x: string, lex: Lex, y: string)
    requires IsTokenText(x, lex) && MayFollow(x, y)
    ensures Lexes(x + y) == Cons(lex, Lexes(y))
  {
    hide SpanEnd, BlockEnd, StringEnd, StepAt, LexAt, Closes;
    var s := x + y;
    assert Window(s, 0, x);
    if y != "" {
      assert s[|x|] == y[0];
    }
    StepWiden(s, 0, x, 0);
    EmitLex(s, 0, lex, |x|);
    KindsPrefixed(Lexeme(lex, 0, |x|), LexAt(s, |x|));
    assert s[|x|..] == y;
    LexSuffix(s, |x|, 0);
  }

  /** A token to print: its text, what it reads as, and the layout before it. */
  datatype Printed = Printed(gap: string, text: string, lex: Lex)

  function Render(ps: seq<Printed>, tail: string): string {
    if ps == [] then tail else ps[0].gap + ps[0].text + Render(ps[1..], tail)
  }

  /** Any layout: gaps of whitespace and comments, which may be empty where
      the two neighbouring tokens do not run into each other. */
  predicate WellSpaced(ps: seq<Printed>, tail: string) {
    && Filler(tail)
    && (forall k :: 0 <= k < |ps| ==> Filler(ps[k].gap) && IsTokenText(ps[k].text, ps[k].lex))
    && (forall k :: 0 <= k < |ps| - 1 && ps[k + 1].gap == "" ==> MayFollow(ps[k].text, ps[k + 1].text))
  }

  function PrintedLexes(ps: seq<Printed>): seq<Lex> {
    seq(|ps|, k requires 0 <= k < |ps| => ps[k].lex)
  }

  /** Filler starts with a character that ends every token. */
  lemma FillerFollows(x: string, lex: Lex, f: string)
    requires IsTokenText(x, lex) && Filler(f)
    ensures MayFollow(x, f)
  {
  }

  /** Whatever is printed behind a token may follow it. */
  lemma RestFollows(ps: seq<Printed>, tail: string)
    requires WellSpaced(ps, tail) && ps != []
    ensures ps[0].text != "" && MayFollow(ps[0].text, Render(ps[1..], tail))
  {
    hide FillerFrom, Closes;
    var x, rest := ps[0].text, Render(ps[1..], tail);
    if |ps| == 1 {
      FillerFollows(x, ps[0].lex, tail);
    } else {
      assert ps[1..][0] == ps[1];
      FillerFollows(x, ps[0].lex, ps[1].gap);
    }
  }

  lemma SpacedRest(ps: seq<Printed>, tail: string)
    requires WellSpaced(ps, tail) && ps != []
    ensures WellSpaced(ps[1..], tail) && PrintedLexes(ps) == [ps[0].lex] + PrintedLexes(ps[1..])
    ensures Filler(ps[0].gap) && IsTokenText(ps[0].text, ps[0].lex)
  {
    hide Filler, IsTokenText, MayFollow;
  }

  lemma SpacedTail(ps: seq<Printed>, tail: string)
    requires WellSpaced(ps, tail)
    ensures Filler(tail) && PrintedLexes([]) == []
  {
  }

  lemma TailLexes(tail: string)
    requires Filler(tail)
    ensures Lexes(tail) == Some([])
  {
    FillerThen(tail, "");
    assert tail + "" == tail;
  }

  /** Printing tokens in any layout and lexing the text gives the tokens back. */
  lemma {:induction false} RenderLexes(ps: seq<Printed>, tail: string)
    requires WellSpaced(ps, tail)
    ensures Lexes(Render(ps, tail)) == Some(PrintedLexes(ps))
  {
    hide Lexes, WellSpaced, Filler, IsTokenText, PrintedLexes;
    SpacedTail(ps, tail);
    if ps == [] {
      TailLexes(tail);
    } else {
      SpacedRest(ps, tail);
      RenderLexes(ps[1..], tail);
      FirstPrinted(ps, tail);
    }
  }

  lemma FirstPrinted(ps: seq<Printed>, tail: string)
    requires WellSpaced(ps, tail) && ps != []
    ensures Lexes(Render(ps, tail)) == Cons(ps[0].lex, Lexes(Render(ps[1..], tail)))
  {
    hide Filler, IsTokenText, MayFollow, Lexes, WellSpaced;
    var p, rest := ps[0], Render(ps[1..], tail);
    SpacedRest(ps, tail);
    RestFollows(ps, tail);
    TokenThen(p.text, p.lex, rest);
    FillerThen(p.gap, p.text + rest);
    assert p.gap + p.text + rest == p.gap + (p.text + rest);
  }

  // ---------------------------------------------------------------- layout independence

  /** `p` is where some token starts or ends. */
  predicate TokenEdge(ls: seq<Lexeme>, p: nat) {
    exists l :: l in ls && (p == l.start || p == l.end)
  }

  /** `out` is `src` with `f` put in at offset `p`. */
  predicate Inserted(src: string, p: nat, f: string, out: string) {
    && p <= |src|
    && |out| == |src| + |f|
    && Window(out, 0, src[..p])
    && Window(out, p, f)
    && out[p + |f|..] == src[p..]
  }

  lemma InsertHere(src: string, p: nat, f: string, out: string)
    requires Inserted(src, p, f, out) && Filler(f)
    ensures Kinds(LexAt(out, p)) == Kinds(LexAt(src, p))
  {
    hide LexAt, StepAt, LexesOf, FillerFrom;
    FillerSkipped(out, p, f, 0);
    LexSuffix(out, p + |f|, 0);
    LexSuffix(src, p, 0);
  }

  /** A chunk that ends at or before the end of `w` is read in `out` as in `src`. */
  lemma SameStep(src: string, w: string, out: string, i: nat)
    requires Window(src, 0, w) && Window(out, 0, w) && i < |w| < |out|
    requires !StepAt(src, i).Fail? && StepAt(src, i).next <= |w|
    requires StartsLineComment(src, i) ==> SpanEnd(src, i + 2, NotNewline) < |w|
    requires IsSpace(out[|w|]) || out[|w|] == '/'
    ensures StepAt(out, i) == StepAt(src, i)
  {
    hide StepAt;
    StepNarrow(src, 0, w, i);
    if StartsLineComment(w, i) {
      SpanWindow(src, 0, w, i + 2, NotNewline);
    }
    StepWiden(out, 0, w, i);
  }

  lemma {:induction false} InsertFrom(src: string, p: nat, f: string, out: string, i: nat)
    requires Inserted(src, p, f, out) && Filler(f) && f != ""
    requires i <= p && LexAt(src, i).Ok? && (p == i || TokenEdge(LexAt(src, i).value, p))
    ensures Kinds(LexAt(out, i)) == Kinds(LexAt(src, i))
    decreases p - i
  {
    if i == p {
      InsertHere(src, p, f, out);
    } else {
      var l :| l in LexAt(src, i).value && (p == l.start || p == l.end);
      var st := StepAt(src, i);
      assert st.next <= p && (p == st.next || l in LexAt(src, st.next).value);
      assert out[p] == f[0];
      SameStep(src, src[..p], out, i);
      InsertFrom(src, p, f, out, st.next);
      if st.Emit? {
        KindsPrefixed(Lexeme(st.lex, i, st.next), LexAt(src, st.next));
        KindsPrefixed(Lexeme(st.lex, i, st.next), LexAt(out, st.next));
      }
    }
  }

  /** Adding whitespace or a comment at the edge of any token of a text that
      lexes leaves all token kinds and values as they were. */
  lemma LayoutIndependent(src: string, p: nat, f: string)
    requires p <= |src| && Filler(f)
    requires LexAt(src, 0).Ok? && TokenEdge(LexAt(src, 0).value, p)
    ensures Lexes(src[..p] + f + src[p..]) == Lexes(src)
  {
    hide LexAt, StepAt, FillerFrom, LexesOf;
    var out := src[..p] + f + src[p..];
    if f == "" {
      assert out == src;
    } else {
      assert src[..p] == out[0..p] && f == out[p..p + |f|] && out[p + |f|..] == src[p..];
      InsertFrom(src, p, f, out, 0);
    }
  }

  // ---------------------------------------------------------------- source spans

  /** From offset `i` on the text is exactly the spans of `ls`, in order and
      disjoint: each span alone reads as its token, only whitespace and
      comments lie between, and only those (the last comment may be cut off
      by the end of the text) follow the last one. */
  predicate Spans(src: string, i: nat, ls: seq<Lexeme>)
    requires i <= |src|
    decreases |ls|
  {
    if ls == [] then Filler(src[i..] + "\n")
    else
      && i <= ls[0].start < ls[0].end <= |src|
      && Filler(src[i..ls[0].start])
      && IsTokenText(src[ls[0].start..ls[0].end], ls[0].lex)
      && Spans(src, ls[0].end, ls[1..])
  }

  lemma {:induction false} FillerSuffix(s: string, a: nat, k: nat)
    requires a + k <= |s| && FillerFrom(s[a..], k)
    ensures FillerFrom(s, a + k)
    decreases |s| - k
  {
    var w := s[a..];
    if k < |w| {
      assert SameHead(s, a, w, k);
      FillerStep(w, k);
      if StartsLineComment(w, k) {
        SpanWindow(s, a, w, k + 2, NotNewline);
      } else if w[k] == '/' {
        BlockWindow(s, a, w, k + 2);
      }
      FillerSuffix(s, a, StepAt(w, k).next);
    }
  }

  lemma {:induction false} SpanIs(s: string, i: nat, n: nat, p: char -> bool)
    requires i <= n <= |s| && (forall k :: i <= k < n ==> p(s[k])) && (n < |s| ==> !p(s[n]))
    ensures SpanEnd(s, i, p) == n
    decreases n - i
  {
    if i < n {
      SpanIs(s, i + 1, n, p);
    }
  }

  lemma LineCommentFills(src: string, i: nat, s: string, n: nat)
    requires i < n <= |src| && StartsLineComment(src, i) && n == LineCommentEnd(src, i + 2)
    requires n - i <= |s| && (forall k :: 0 <= k < n - i ==> s[k] == src[i + k]) && FillerFrom(s, n - i)
    requires SpanEnd(src, i + 2, NotNewline) == |src| ==> n - i < |s| && s[n - i] == '\n'
    ensures Filler(s)
  {
    var e := SpanEnd(src, i + 2, NotNewline) - i;
    assert s[0] == src[i + 0] && s[1] == src[i + 1];
    SpanIs(s, 2, e, NotNewline);
    assert FillerFrom(s, e + 1);
  }

  lemma BlockCommentFills(src: string, i: nat, s: string, n: nat)
    requires i + 1 < n <= |src| && src[i] == '/' && src[i + 1] == '*' && BlockEnd(src, i + 2) == Some(n)
    requires Window(s, 0, src[i..n]) && FillerFrom(s, n - i)
    ensures Filler(s)
  {
    var w := src[i..n];
    assert SameHead(src, i, w, 0) && SameHead(s, 0, w, 0);
    BlockWindow(src, i, w, 2);
    BlockWindow(s, 0, w, 2);
  }

  /** Filler grows at its front by any chunk the scanner skips. */
  lemma FillerGrows(src: string, i: nat, s: string, n: nat)
    requires i < n <= |src| && StepAt(src, i) == Skip(n)
    requires n - i <= |s| && s[..n - i] == src[i..n] && Filler(s[n - i..])
    requires StartsLineComment(src, i) && SpanEnd(src, i + 2, NotNewline) == |src| ==>
               n - i < |s| && s[n - i] == '\n'
    ensures Filler(s)
  {
    FillerSuffix(s, n - i, 0);
    if StartsLineComment(src, i) {
      assert forall k :: 0 <= k < n - i ==> s[k] == s[..n - i][k];
      LineCommentFills(src, i, s, n);
    } else if src[i] == '/' {
      BlockCommentFills(src, i, s, n);
    } else {
      assert s[0] == src[i..n][0];
    }
  }

  lemma SpansEmit(src: string, i: nat)
    requires i < |src| && LexAt(src, i).Ok? && StepAt(src, i).Emit?
    requires Spans(src, StepAt(src, i).next, LexAt(src, StepAt(src, i).next).value)
    ensures Spans(src, i, LexAt(src, i).value)
  {
    var n := StepAt(src, i).next;
    assert LexAt(src, i).value[1..] == LexAt(src, n).value;
    StepNarrow(src, i, src[i..n], 0);
  }

  lemma SkipMeans(src: string, i: nat)
    requires i < |src| && StepAt(src, i).Skip?
    ensures LexAt(src, i) == LexAt(src, StepAt(src, i).next) && LexAt(src, |src|) == Ok([])
    ensures StartsLineComment(src, i) && SpanEnd(src, i + 2, NotNewline) == |src| ==> StepAt(src, i).next == |src|
  {
  }

  lemma SpansSkip(src: string, i: nat)
    requires i < |src| && LexAt(src, i).Ok? && StepAt(src, i).Skip?
    requires Spans(src, StepAt(src, i).next, LexAt(src, StepAt(src, i).next).value)
    ensures Spans(src, i, LexAt(src, i).value)
  {
    hide StepAt, LexAt, FillerFrom, SpanEnd, IsTokenText;
    SkipMeans(src, i);
    var ls, n := LexAt(src, i).value, StepAt(src, i).next;
    var s := if ls == [] then src[i..] + "\n" else src[i..ls[0].start];
    assert s[n - i..] == if ls == [] then src[n..] + "\n" else src[n..ls[0].start];
    FillerGrows(src, i, s, n);
  }

  lemma {:induction false} SpansFrom(src: string, i: nat)
    requires i <= |src| && LexAt(src, i).Ok?
    ensures Spans(src, i, LexAt(src, i).value)
    decreases |src| - i
  {
    hide StepAt, Spans;
    if i == |src| {
      SpansEnd(src);
    } else {
      SpansFrom(src, StepAt(src, i).next);
      if StepAt(src, i).Emit? {
        SpansEmit(src, i);
      } else {
        SpansSkip(src, i);
      }
    }
  }

  lemma SpansEnd(src: string)
    ensures Spans(src, |src|, [])
  {
    assert src[|src|..] + "\n" == "\n";
  }

  /** The tokens of a text that lexes come from ordered, disjoint spans with
      only whitespace and comments between them; `tokenize` reports each at the
      line and column counted from the newlines before its span. */
  lemma TokenSpans(src: string, ls: seq<Lexeme>)
    requires LexAt(src, 0) == Ok(ls)
    ensures Spans(src, 0, ls)
    ensures TokenizeSpec(src) == Ok(TokensOf(src, ls) + [TokenAt(src, EOF_LEX, |src|)])
  {
    SpansFrom(src, 0);
  }

  /** Any two tokens' spans are in order and do not overlap. */
  lemma {:induction false} SpansDisjoint(src: string, i: nat, ls: seq<Lexeme>, j: nat, k: nat)
    requires i <= |src| && Spans(src, i, ls) && j < k < |ls|
    ensures i <= ls[j].start < ls[j].end <= ls[k].start
    decreases |ls|
  {
    if j > 0 {
      SpansDisjoint(src, ls[0].end, ls[1..], j - 1, k - 1);
    } else if k > 1 {
      SpansDisjoint(src, ls[0].end, ls[1..], 0, k - 1);
    }
  }
}
