/**
 What the parser of cmd/protogen-tesla/parser.go skips: option and reserved
 statements, option groups in brackets, nested types, top-level syntax, package,
 import and option statements, all described by counting brackets.
*/
module ProtoSkips {
  import opened ProtoLexer
  import opened ProtoParser

  // ---------------------------------------------------------------- skipped tokens

  predicate NoEof(g: seq<Lex>) {
    forall l :: l in g ==> l.kind != EOF
  }

  lemma {:induction false} StreamAppend(g: seq<Lex>, k: seq<Lex>)
    requires NoEof(g) && Stream(k)
    ensures Stream(g + k)
  {
    if g == [] {
      assert g + k == k;
    } else {
      assert g[0] in g;
      StreamAppend(g[1..], k);
      assert (g + k)[1..] == g[1..] + k;
    }
  }

  datatype Nesting = AnyBracket | SquareOnly | CurlyOnly

  /** How a token changes the nesting depth. */
  function Weight(l: Lex, n: Nesting): int {
    if IsP(l, "{") then if n == SquareOnly then 0 else 1
    else if IsP(l, "}") then if n == SquareOnly then 0 else -1
    else if IsP(l, "[") then if n == CurlyOnly then 0 else 1
    else if IsP(l, "]") then if n == CurlyOnly then 0 else -1
    else if IsP(l, "(") then if n == AnyBracket then 1 else 0
    else if IsP(l, ")") then if n == AnyBracket then -1 else 0
    else 0
  }

  /** Openings minus closings in `g`. */
  function Net(g: seq<Lex>, n: Nesting): int {
    if g == [] then 0 else Weight(g[0], n) + Net(g[1..], n)
  }

  lemma NetPrefix(g: seq<Lex>, n: Nesting, k: nat)
    requires 0 < k <= |g|
    ensures Net(g[..k], n) == Weight(g[0], n) + Net(g[1..][..k - 1], n)
  {
    assert g[..k][1..] == g[1..][..k - 1];
  }

  /** `g`, entered at depth `d`, ends with its first semicolon at depth zero. */
  predicate Statement(g: seq<Lex>, d: int) {
    && g != [] && NoEof(g)
    && IsP(g[|g| - 1], ";") && d + Net(g[..|g| - 1], AnyBracket) == 0
    && forall k :: 0 <= k < |g| - 1 && IsP(g[k], ";") ==> d + Net(g[..k], AnyBracket) != 0
  }

  /** `g`, entered at depth `d`, ends where its depth first falls to zero. */
  predicate Group(g: seq<Lex>, d: int, n: Nesting) {
    && NoEof(g)
    && d + Net(g, n) == 0
    && forall k :: 0 <= k < |g| ==> d + Net(g[..k], n) > 0
  }

  lemma NetPrefixes(g: seq<Lex>, n: Nesting)
    requires g != []
    ensures forall k {:trigger g[..k]} :: 0 < k <= |g| ==> Net(g[..k], n) == Weight(g[0], n) + Net(g[1..][..k - 1], n)
    ensures forall k {:trigger g[1..][..k]} :: 0 <= k < |g| ==>
      Net(g[..k + 1], n) == Weight(g[0], n) + Net(g[1..][..k], n)
  {
    forall k | 0 < k <= |g|
      ensures Net(g[..k], n) == Weight(g[0], n) + Net(g[1..][..k - 1], n)
    {
      NetPrefix(g, n, k);
    }
    forall k | 0 <= k < |g|
      ensures Net(g[..k + 1], n) == Weight(g[0], n) + Net(g[1..][..k], n)
    {
      NetPrefix(g, n, k + 1);
    }
  }

  lemma StatementTail(g: seq<Lex>, d: int)
    requires |g| > 1 && (IsP(g[0], ";") ==> d != 0) && g[0].kind != EOF
    ensures Statement(g, d) == Statement(g[1..], d + Weight(g[0], AnyBracket))
  {
    var h, e := g[1..], d + Weight(g[0], AnyBracket);
    assert g == [g[0]] + h;
    NetPrefixes(g, AnyBracket);
    hide Weight;
    if Statement(h, e) {
      forall k | 0 <= k < |g| - 1 && IsP(g[k], ";")
        ensures d + Net(g[..k], AnyBracket) != 0
      {
        assert k > 0 ==> IsP(h[k - 1], ";");
      }
    }
    if Statement(g, d) {
      forall k | 0 <= k < |h| - 1 && IsP(h[k], ";")
        ensures e + Net(h[..k], AnyBracket) != 0
      {
        assert IsP(g[k + 1], ";");
      }
    }
  }

  /** `skipStatement` stops just after the first semicolon at depth zero ... */
  lemma {:induction false} SkipStatementStops(g: seq<Lex>, d: int, k: seq<Lex>)
    requires Stream(k) && Statement(g, d)
    ensures Stream(g + k) && SkipStatement(g + k, d) == k
    decreases |g|
  {
    StreamAppend(g, k);
    assert g[0] in g;
    hide NoEof;
    assert (g + k)[1..] == g[1..] + k && (g + k)[0] == g[0];
    assert g[..0] == [];
    if |g| > 1 {
      StatementTail(g, d);
      hide Statement;
      SkipStatementStops(g[1..], d + Weight(g[0], AnyBracket), k);
    }
  }

  /** ... and when there is none it runs to the EOF token. */
  lemma {:induction false} SkipStatementCases(ls: seq<Lex>, d: int)
    requires Stream(ls)
    ensures var r := SkipStatement(ls, d);
      && ls == ls[..|ls| - |r|] + r
      && (Statement(ls[..|ls| - |r|], d) || |r| == 1)
    decreases |ls|
  {
    if ls[0].kind == EOF {
    } else if IsP(ls[0], ";") && d == 0 {
      assert ls[..1][..0] == [];
    } else {
      var e := d + Weight(ls[0], AnyBracket);
      var r := SkipStatement(ls[1..], e);
      assert SkipStatement(ls, d) == r;
      SkipStatementCases(ls[1..], e);
      StatementGrows(ls, d, |ls| - |r|);
    }
  }

  lemma StatementGrows(ls: seq<Lex>, d: int, m: nat)
    requires 0 < m <= |ls| && (IsP(ls[0], ";") ==> d != 0) && ls[0].kind != EOF
    ensures ls == ls[..m] + ls[m..]
    ensures Statement(ls[1..][..m - 1], d + Weight(ls[0], AnyBracket)) ==> Statement(ls[..m], d)
  {
    assert ls[..m][1..] == ls[1..][..m - 1];
    if m > 1 {
      StatementTail(ls[..m], d);
    }
  }

  lemma GroupTail(g: seq<Lex>, d: int, n: Nesting)
    requires g != [] && d > 0 && g[0].kind != EOF
    ensures Group(g, d, n) == Group(g[1..], d + Weight(g[0], n), n)
  {
    var h, e := g[1..], d + Weight(g[0], n);
    assert g == [g[0]] + h;
    NetPrefixes(g, n);
    hide Weight;
    if Group(g, d, n) {
      forall k | 0 <= k < |h|
        ensures e + Net(h[..k], n) > 0
      {
        assert d + Net(g[..k + 1], n) > 0;
      }
    }
    if Group(h, e, n) {
      forall k | 0 <= k < |g|
        ensures d + Net(g[..k], n) > 0
      {
        assert k > 0 ==> e + Net(h[..k - 1], n) > 0;
      }
    }
  }

  lemma {:induction false} SkipBracesStops(g: seq<Lex>, d: int, k: seq<Lex>)
    requires Stream(k) && Group(g, d, CurlyOnly)
    ensures Stream(g + k) && SkipBraces(g + k, d) == k
    decreases |g|
  {
    StreamAppend(g, k);
    if g == [] {
      assert g + k == k;
    } else {
      assert g[..0] == [];
      assert g[0] in g;
      GroupTail(g, d, CurlyOnly);
      assert (g + k)[1..] == g[1..] + k;
      SkipBracesStops(g[1..], d + Weight(g[0], CurlyOnly), k);
    }
  }

  lemma GroupGrows(ls: seq<Lex>, d: int, n: Nesting, m: nat)
    requires 0 < m <= |ls| && d > 0 && ls[0].kind != EOF
    ensures ls == ls[..m] + ls[m..]
    ensures Group(ls[1..][..m - 1], d + Weight(ls[0], n), n) ==> Group(ls[..m], d, n)
  {
    assert ls[..m][1..] == ls[1..][..m - 1];
    GroupTail(ls[..m], d, n);
  }

  lemma {:induction false} SkipBracesCases(ls: seq<Lex>, d: int)
    requires Stream(ls) && d >= 0
    ensures var r := SkipBraces(ls, d);
      && ls == ls[..|ls| - |r|] + r
      && (Group(ls[..|ls| - |r|], d, CurlyOnly) || |r| == 1)
    decreases |ls|
  {
    if d > 0 && ls[0].kind != EOF {
      var e := d + Weight(ls[0], CurlyOnly);
      var r := SkipBraces(ls[1..], e);
      assert SkipBraces(ls, d) == r;
      SkipBracesCases(ls[1..], e);
      GroupGrows(ls, d, CurlyOnly, |ls| - |r|);
    }
  }

  /** `[` ... `]`: a nonempty group that opens with a bracket. */
  predicate BracketGroup(g: seq<Lex>) {
    g != [] && IsP(g[0], "[") && Group(g[1..], 1, SquareOnly)
  }

  lemma {:induction false} SkipBracketsStops(g: seq<Lex>, d: int, k: seq<Lex>)
    requires Stream(k) && d > 0 && Group(g, d, SquareOnly)
    ensures Stream(g + k) && SkipBrackets(g + k, d) == k
    decreases |g|
  {
    StreamAppend(g, k);
    assert g[0] in g;
    GroupTail(g, d, SquareOnly);
    assert (g + k)[1..] == g[1..] + k;
    if |g| == 1 {
      assert g[1..] == [];
    } else {
      assert g[1..][..0] == [];
      SkipBracketsStops(g[1..], d + Weight(g[0], SquareOnly), k);
    }
  }

  lemma {:induction false} SkipBracketsCases(ls: seq<Lex>, d: int)
    requires Stream(ls) && d > 0
    ensures var r := SkipBrackets(ls, d);
      && ls == ls[..|ls| - |r|] + r
      && (Group(ls[..|ls| - |r|], d, SquareOnly) || |r| == 1)
    decreases |ls|
  {
    if ls[0].kind != EOF {
      var e := d + Weight(ls[0], SquareOnly);
      var r := if e == 0 then ls[1..] else SkipBrackets(ls[1..], e);
      assert SkipBrackets(ls, d) == r;
      if e > 0 {
        SkipBracketsCases(ls[1..], e);
      }
      GroupGrows(ls, d, SquareOnly, |ls| - |r|);
    }
  }
}
