/**
 Re-windowing of an expression: `rewriteWindow` of cmd/slogen/generate.go, two
 replacements one after the other, against one pass over the expression.
*/
module Windows {
  import opened Strconv
  import opened GoStrings

  const RANGE := "[5m]"
  const SUBQUERY := "[5m:30s]"

  /** `strings.ReplaceAll` for a non-empty text to replace. */
  function ReplaceAll(s: string, from: string, to: string): string
    requires from != ""
    decreases |s|
  {
    if s == "" then ""
    else if HasPrefix(s, from) then to + ReplaceAll(s[|from|..], from, to)
    else [s[0]] + ReplaceAll(s[1..], from, to)
  }

  function RangeOf(w: string): string {
    "[" + w + "]"
  }

  function SubqueryOf(w: string): string {
    "[" + w + ":30s]"
  }

  function Widen(s: string, w: string): string {
    ReplaceAll(s, SUBQUERY, SubqueryOf(w))
  }

  function RewriteWindow(s: string, w: string): string {
    ReplaceAll(Widen(s, w), RANGE, RangeOf(w))
  }

  // ---------------------------------------------------------------- one pass

  /** An expression as a row of plain characters and the two bracket forms. */
  datatype Piece = Plain(c: char) | Range | Subquery

  function Pieces(s: string): seq<Piece>
    decreases |s|
  {
    if s == "" then []
    else if HasPrefix(s, SUBQUERY) then [Subquery] + Pieces(s[|SUBQUERY|..])
    else if HasPrefix(s, RANGE) then [Range] + Pieces(s[|RANGE|..])
    else [Plain(s[0])] + Pieces(s[1..])
  }

  function PieceText(p: Piece, w: string): string {
    match p
    case Plain(c) => [c]
    case Range => RangeOf(w)
    case Subquery => SubqueryOf(w)
  }

  function Render(ps: seq<Piece>, w: string): string {
    if ps == [] then "" else PieceText(ps[0], w) + Render(ps[1..], w)
  }

  /** A window that cannot be mistaken for a bracket form. */
  predicate Bracketless(w: string) {
    '[' !in w && ']' !in w
  }

  predicate IsWindow(w: string) {
    |w| >= 2 && AllDigits(w[..|w| - 1]) && w[|w| - 1] in "mhdw"
  }

  // ---------------------------------------------------------------- steps

  /** A bracket-free beginning of the output was there in the input. */
  lemma {:induction false} RenderedPrefix(s: string, w: string, x: string)
    requires '[' !in x && HasPrefix(Render(Pieces(s), w), x)
    ensures HasPrefix(s, x)
    decreases |x|
  {
    if x != "" {
      var out := Render(Pieces(s), w);
      assert out[0] == x[0] && x[0] in x;
      FirstPlain(s, w);
      assert out[1..][..|x| - 1] == x[1..];
      assert forall c :: c in x[1..] ==> c in x;
      RenderedPrefix(s[1..], w, x[1..]);
      assert s == [s[0]] + s[1..] && x == [x[0]] + x[1..];
    }
  }

  lemma FirstPlain(s: string, w: string)
    requires var out := Render(Pieces(s), w); out != "" && out[0] != '['
    ensures s != "" && Render(Pieces(s), w)[0] == s[0] && Render(Pieces(s), w)[1..] == Render(Pieces(s[1..]), w)
  {
  }

  /** Nothing is found inside a stretch where no copy can begin. */
  lemma {:induction false} ReplaceSkips(head: string, s: string, from: string, to: string)
    requires from != "" && forall k :: 0 <= k < |head| ==> !HasPrefix(head[k..] + s, from)
    ensures ReplaceAll(head + s, from, to) == head + ReplaceAll(s, from, to)
    decreases |head|
  {
    if head == "" {
      assert head + s == s;
    } else {
      assert head[0..] + s == head + s;
      assert (head + s)[1..] == head[1..] + s;
      forall k | 0 <= k < |head| - 1 ensures !HasPrefix(head[1..][k..] + s, from) {
        assert head[1..][k..] == head[k + 1..];
      }
      ReplaceSkips(head[1..], s, from, to);
    }
  }

  /** What the two forms look like from their first character on. */
  lemma FormHeads(t: string)
    ensures HasPrefix(t, RANGE) <==> |t| >= 4 && t[0] == '[' && t[1..4] == "5m]"
    ensures HasPrefix(t, SUBQUERY) <==> |t| >= 8 && t[0] == '[' && t[1..8] == "5m:30s]"
  {
    if |t| >= 4 && t[0] == '[' && t[1..4] == "5m]" {
      assert t == ['['] + t[1..4] + t[4..];
    }
    if |t| >= 8 && t[0] == '[' && t[1..8] == "5m:30s]" {
      assert t == ['['] + t[1..8] + t[8..];
    }
    if HasPrefix(t, RANGE) {
      assert t[1..4] == RANGE[1..4];
    }
    if HasPrefix(t, SUBQUERY) {
      assert t[1..8] == SUBQUERY[1..8];
    }
  }

  /** A stretch with a bracket only in front, that is no bracket form itself, is
      passed over. */
  lemma BracketSkipped(head: string, s: string, to: string)
    requires |head| >= 4 && head[0] == '[' && head[1..4] != "5m]" && '[' !in head[1..]
    ensures ReplaceAll(head + s, RANGE, to) == head + ReplaceAll(s, RANGE, to)
  {
    forall k | 0 <= k < |head| ensures !HasPrefix(head[k..] + s, RANGE) {
      var t := head[k..] + s;
      FormHeads(t);
      assert t[0] == head[k];
      assert k == 0 ==> t[1..4] == head[1..4];
      assert k > 0 ==> head[k] == head[1..][k - 1];
    }
    ReplaceSkips(head, s, RANGE, to);
  }

  /** A written subquery is no range of five minutes. */
  lemma SubquerySkipped(w: string, s: string, to: string)
    requires Bracketless(w)
    ensures ReplaceAll(SubqueryOf(w) + s, RANGE, to) == SubqueryOf(w) + ReplaceAll(s, RANGE, to)
  {
    var head := SubqueryOf(w);
    assert head[1..] == w + ":30s]";
    if |w| >= 3 {
      assert head[3] == w[2];
    } else {
      assert head[3] != ']';
    }
    assert "5m]"[2] == ']' && head[1..4][2] == head[3];
    BracketSkipped(head, s, to);
  }

  lemma {:induction false} WidenedPrefix(s: string, w: string, x: string)
    requires '[' !in x && HasPrefix(Widen(s, w), x)
    ensures HasPrefix(s, x)
    decreases |x|
  {
    if x != "" {
      assert Widen(s, w)[0] == x[0] && x[0] in x;
      WidenPlain(s, w);
      assert Widen(s, w)[1..][..|x| - 1] == x[1..];
      assert forall c :: c in x[1..] ==> c in x;
      WidenedPrefix(s[1..], w, x[1..]);
      assert s == [s[0]] + s[1..] && x == [x[0]] + x[1..];
    }
  }

  lemma WidenPlain(s: string, w: string)
    requires Widen(s, w) != "" && Widen(s, w)[0] != '['
    ensures s != "" && Widen(s, w)[0] == s[0] && Widen(s, w)[1..] == Widen(s[1..], w)
  {
  }

  /** The first replacement passes over a range. */
  lemma RangeKept(s: string, w: string)
    requires HasPrefix(s, RANGE)
    ensures Widen(s, w) == RANGE + Widen(s[4..], w)
  {
    var rest := s[4..];
    FormHeads(s);
    forall k | 0 <= k < |RANGE| ensures !HasPrefix(RANGE[k..] + rest, SUBQUERY) {
      var t := RANGE[k..] + rest;
      FormHeads(t);
      assert t[0] == RANGE[k];
      assert k == 0 ==> t[3] == ']';
      if |t| >= 8 {
        assert t[1..8][2] == t[3];
      }
    }
    ReplaceSkips(RANGE, rest, SUBQUERY, SubqueryOf(w));
    assert s == RANGE + rest;
  }

  lemma ReplaceHead(s: string, from: string, to: string)
    requires from != ""
    ensures ReplaceAll(from + s, from, to) == to + ReplaceAll(s, from, to)
  {
    assert (from + s)[|from|..] == s;
  }

  /** No range begins at a plain character, after the first replacement either. */
  lemma PlainKept(s: string, w: string)
    requires s != "" && !HasPrefix(s, RANGE)
    ensures !HasPrefix([s[0]] + Widen(s[1..], w), RANGE)
  {
    var t := [s[0]] + Widen(s[1..], w);
    FormHeads(t);
    if HasPrefix(t, RANGE) {
      assert t[1..4] == Widen(s[1..], w)[..3];
      WidenedPrefix(s[1..], w, "5m]");
      FormHeads(s);
      assert false;
    }
  }

  /** The two replacements one after the other are one simultaneous pass from left to
      right: every plain character stays, and only the two forms take the window. */
  lemma {:induction false} OnePass(s: string, w: string)
    requires Bracketless(w)
    ensures RewriteWindow(s, w) == Render(Pieces(s), w)
    decreases |s|
  {
    hide ReplaceAll, SubqueryOf;
    if s == "" {
      EmptyReplaced(SUBQUERY, SubqueryOf(w));
      EmptyReplaced(RANGE, RangeOf(w));
    } else if HasPrefix(s, SUBQUERY) {
      var rest := s[|SUBQUERY|..];
      assert s == SUBQUERY + rest;
      ReplaceHead(rest, SUBQUERY, SubqueryOf(w));
      SubquerySkipped(w, Widen(rest, w), RangeOf(w));
      OnePass(rest, w);
    } else if HasPrefix(s, RANGE) {
      RangeKept(s, w);
      ReplaceHead(Widen(s[4..], w), RANGE, RangeOf(w));
      OnePass(s[4..], w);
    } else {
      ReplacePlain(s, SUBQUERY, SubqueryOf(w));
      PlainKept(s, w);
      var t := [s[0]] + Widen(s[1..], w);
      ReplacePlain(t, RANGE, RangeOf(w));
      assert t[1..] == Widen(s[1..], w);
      OnePass(s[1..], w);
    }
  }

  lemma EmptyReplaced(from: string, to: string)
    requires from != ""
    ensures ReplaceAll("", from, to) == ""
  {
  }

  lemma ReplacePlain(s: string, from: string, to: string)
    requires from != "" && s != "" && !HasPrefix(s, from)
    ensures ReplaceAll(s, from, to) == [s[0]] + ReplaceAll(s[1..], from, to)
  {
  }

  /** The pieces are the expression: written back with five minutes they give it. */
  lemma {:induction false} RenderPieces(s: string)
    ensures Render(Pieces(s), "5m") == s
    decreases |s|
  {
    if s == "" {
    } else if HasPrefix(s, SUBQUERY) {
      RenderPieces(s[|SUBQUERY|..]);
      assert SubqueryOf("5m") == SUBQUERY;
      assert s == SUBQUERY + s[|SUBQUERY|..];
    } else if HasPrefix(s, RANGE) {
      RenderPieces(s[|RANGE|..]);
      assert RangeOf("5m") == RANGE;
      assert s == RANGE + s[|RANGE|..];
    } else {
      RenderPieces(s[1..]);
      assert s == [s[0]] + s[1..];
    }
  }

  lemma FiveMinutesIdentity(s: string)
    ensures RewriteWindow(s, "5m") == s
  {
    OnePass(s, "5m");
    RenderPieces(s);
  }

  // ---------------------------------------------------------------- the second rewrite

  predicate FormAt(t: string, k: nat) {
    k < |t| && (HasPrefix(t[k..], RANGE) || HasPrefix(t[k..], SUBQUERY))
  }

  predicate Formless(t: string) {
    forall k :: 0 <= k < |t| ==> !FormAt(t, k)
  }

  lemma WindowShape(w: string)
    requires IsWindow(w)
    ensures Bracketless(w) && (w != "5m" ==> w[..2] != "5m")
  {
    assert forall k :: 0 <= k < |w| - 1 ==> w[k] == w[..|w| - 1][k];
    if w[..2] == "5m" {
      assert w[1] == w[..2][1] == 'm';
      assert |w| == 2;
      assert w == w[..2];
    }
  }

  /** A stretch whose only bracket is in front and is not followed by five minutes
      adds no form. */
  lemma FormlessAfter(head: string, t: string)
    requires Formless(t) && head != "" && '[' !in head[1..]
    requires head[0] == '[' ==> !FormAt(head + t, 0)
    ensures Formless(head + t)
  {
    var all := head + t;
    forall k | 0 <= k < |all| ensures !FormAt(all, k) {
      FormHeads(all[k..]);
      if k >= |head| {
        assert all[k..] == t[k - |head|..];
        assert !FormAt(t, k - |head|);
      } else {
        assert all[k..][0] == head[k];
        assert k > 0 ==> head[k] == head[1..][k - 1];
        assert all[0..] == all;
      }
    }
  }

  lemma NotFive(w: string, tail: string)
    requires IsWindow(w) && w != "5m"
    ensures !FormAt("[" + w + tail, 0)
  {
    var t := "[" + w + tail;
    assert t[0..] == t;
    WindowShape(w);
    FormHeads(t);
    assert t[1..3] == w[..2];
    if |t| >= 4 {
      assert t[1..3] == t[1..4][..2];
      assert "5m]"[..2] == "5m";
    }
    if |t| >= 8 {
      assert t[1..3] == t[1..8][..2];
      assert "5m:30s]"[..2] == "5m";
    }
  }

  lemma PlainFormless(s: string, w: string)
    requires s != "" && !HasPrefix(s, SUBQUERY) && !HasPrefix(s, RANGE)
    ensures !FormAt([s[0]] + Render(Pieces(s[1..]), w), 0)
  {
    var out := Render(Pieces(s[1..]), w);
    var t := [s[0]] + out;
    assert t[0..] == t;
    FormHeads(t);
    FormHeads(s);
    if HasPrefix(t, RANGE) {
      assert t[1..4] == out[..3];
      RenderedPrefix(s[1..], w, "5m]");
      assert false;
    }
    if HasPrefix(t, SUBQUERY) {
      assert t[1..8] == out[..7];
      RenderedPrefix(s[1..], w, "5m:30s]");
      assert false;
    }
  }

  lemma {:induction false} RewrittenFormless(s: string, w: string)
    requires IsWindow(w) && w != "5m"
    ensures Formless(Render(Pieces(s), w))
    decreases |s|
  {
    hide Formless, FormAt, IsWindow;
    WindowShape(w);
    if s == "" {
      EmptyFormless();
    } else if HasPrefix(s, SUBQUERY) {
      var rest := Render(Pieces(s[|SUBQUERY|..]), w);
      RewrittenFormless(s[|SUBQUERY|..], w);
      NotFive(w, ":30s]" + rest);
      assert "[" + w + (":30s]" + rest) == SubqueryOf(w) + rest;
      assert SubqueryOf(w)[1..] == w + ":30s]";
      FormlessAfter(SubqueryOf(w), rest);
    } else if HasPrefix(s, RANGE) {
      var rest := Render(Pieces(s[|RANGE|..]), w);
      RewrittenFormless(s[|RANGE|..], w);
      NotFive(w, "]" + rest);
      assert "[" + w + ("]" + rest) == RangeOf(w) + rest;
      assert RangeOf(w)[1..] == w + "]";
      FormlessAfter(RangeOf(w), rest);
    } else {
      RewrittenFormless(s[1..], w);
      PlainFormless(s, w);
      FormlessAfter([s[0]], Render(Pieces(s[1..]), w));
    }
  }

  lemma EmptyFormless()
    ensures Formless("")
  {
  }

  /** Once another window is in place a further rewrite, to whatever window, finds
      nothing. */
  lemma SecondRewrite(s: string, w: string, again: string)
    requires IsWindow(w) && w != "5m"
    ensures RewriteWindow(RewriteWindow(s, w), again) == RewriteWindow(s, w)
  {
    WindowShape(w);
    OnePass(s, w);
    var out := RewriteWindow(s, w);
    RewrittenFormless(s, w);
    forall k | 0 <= k < |out| ensures !HasPrefix(out[k..] + "", SUBQUERY) && !HasPrefix(out[k..] + "", RANGE) {
      assert out[k..] + "" == out[k..];
      assert !FormAt(out, k);
    }
    ReplaceSkips(out, "", SUBQUERY, SubqueryOf(again));
    ReplaceSkips(out, "", RANGE, RangeOf(again));
    assert out + "" == out;
  }
}
