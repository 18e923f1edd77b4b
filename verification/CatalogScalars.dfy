/**
 What the comment stripper and the unquoter of cmd/slogen/main.go make of scalars: those
 that the quoter of generate.go wrote, and those written plainly or in single quotes.
*/
module CatalogScalars {
  import opened Wrappers
  import opened GoStrings
  import opened Catalog

  // ---------------------------------------------------------------- comments and quotes

  /** No quote flips the flag between `i` and `j`. */
  predicate Quiet(line: string, i: nat, j: nat) {
    j <= |line| && forall k :: i <= k < j && line[k] == '"' ==> k > 0 && line[k - 1] == '\\'
  }

  lemma KeptSame(line: string, i: nat, q: bool)
    requires i < |line| && Toggled(line, i, q) == q && (q || line[i] != '#')
    ensures Kept(line, i, q) == [line[i]] + Kept(line, i + 1, q)
  {
  }

  lemma {:induction false} KeptQuiet(line: string, i: nat, j: nat, q: bool)
    requires i <= j && Quiet(line, i, j)
    requires q || forall k :: i <= k < j ==> line[k] != '#'
    ensures Kept(line, i, q) == line[i..j] + Kept(line, j, q)
    decreases j - i
  {
    hide Kept;
    if i < j {
      KeptSame(line, i, q);
      KeptQuiet(line, i + 1, j, q);
      assert line[i..j] == [line[i]] + line[i + 1..j];
    }
  }

  /** Every quote in an escaped text stands behind a backslash. */
  lemma {:induction false} EscapedQuiet(s: string)
    ensures forall k :: 0 <= k < |Escaped(s)| && Escaped(s)[k] == '"' ==> k > 0 && Escaped(s)[k - 1] == '\\'
  {
    if s != "" {
      EscapedQuiet(s[1..]);
    }
  }

  predicate EndsInBackslash(s: string) {
    s != "" && s[|s| - 1] == '\\'
  }

  lemma {:induction false} EscapedLast(s: string)
    requires s != ""
    ensures Escaped(s) != "" && EndsInBackslash(Escaped(s)) == EndsInBackslash(s)
  {
    if |s| > 1 {
      EscapedLast(s[1..]);
    }
  }

  lemma {:induction false} EscapedKeeps(s: string, c: char)
    requires c !in s && c != '\\'
    ensures c !in Escaped(s)
  {
    if s != "" {
      EscapedKeeps(s[1..], c);
    }
  }

  lemma QuotedCells(line: string, i: nat, s: string, j: nat)
    requires i <= j <= |line| && line[i..j] == Quoted(s)
    ensures j == i + |Escaped(s)| + 2 && line[i] == '"' && line[j - 1] == '"'
    ensures forall k :: i < k < j - 1 ==> line[k] == Escaped(s)[k - i - 1]
    ensures line[i + 1..j - 1] == Escaped(s)
  {
    assert forall k :: i <= k < j ==> line[k] == Quoted(s)[k - i];
  }

  /** A quoted scalar is kept whole, `#` included, when the flag is down before it; with
      the flag up it is kept when it holds no `#`. Behind it the flag has changed exactly
      when the last character of the scalar is a backslash. */
  lemma KeptQuoted(line: string, i: nat, s: string, j: nat, up: bool)
    requires i <= j <= |line| && line[i..j] == Quoted(s)
    requires i == 0 || line[i - 1] != '\\'
    requires up ==> '#' !in s
    ensures Kept(line, i, up) == Quoted(s) + Kept(line, j, up != EndsInBackslash(s))
  {
    hide Kept, Escaped, EndsInBackslash;
    var q := up != EndsInBackslash(s);
    QuotedCells(line, i, s, j);
    EscapedQuiet(s);
    if up {
      EscapedKeeps(s, '#');
    }
    KeptCharacter(line, i, up);
    KeptQuiet(line, i + 1, j - 1, !up);
    KeptCharacter(line, j - 1, !up);
    assert q == Toggled(line, j - 1, !up) by {
      ClosingQuote(line, i, s, j, up);
    }
    Regroup([line[i]], line[i + 1..j - 1], [line[j - 1]], Kept(line, j, q));
  }

  lemma ClosingQuote(line: string, i: nat, s: string, j: nat, up: bool)
    requires i <= j <= |line| && line[i..j] == Quoted(s)
    ensures j >= i + 2 && Toggled(line, j - 1, !up) == (up != EndsInBackslash(s))
  {
    QuotedCells(line, i, s, j);
    if s != "" {
      EscapedLast(s);
      assert line[j - 2] == Escaped(s)[|Escaped(s)| - 1];
    }
  }

  lemma Regroup(a: string, b: string, c: string, d: string)
    ensures a + (b + (c + d)) == (a + b + c) + d
  {
  }

  lemma Glue(line: string, i: nat, j: nat)
    requires i <= j <= |line|
    ensures line[i..j] + line[j..] == line[i..]
  {
  }

  lemma KeptCharacter(line: string, i: nat, q: bool)
    requires i < |line| && line[i] != '#'
    ensures Kept(line, i, q) == [line[i]] + Kept(line, i + 1, Toggled(line, i, q))
  {
  }

  lemma StripScalar(lead: string, s: string)
    requires lead != "" && '"' !in lead && '#' !in lead && '\\' !in lead
    ensures StripComment(lead + Quoted(s)) == lead + Quoted(s)
  {
    hide Kept, Quoted;
    var line := lead + Quoted(s);
    KeptQuiet(line, 0, |lead|, false);
    assert line[|lead|..|line|] == Quoted(s);
    KeptQuoted(line, |lead|, s, |line|, false);
    KeptEnd(line);
    assert line[0..|lead|] + line[|lead|..|line|] == line;
    QuotedEnds(s);
  }

  lemma QuotedEnds(s: string)
    ensures |Quoted(s)| >= 2 && Quoted(s)[0] == '"' && Quoted(s)[|Quoted(s)| - 1] == '"'
  {
  }

  lemma DroppedParts(lead: string, q: string, pad: string, note: string)
    ensures var line, n := lead + q + pad + "#" + note, |lead| + |q|;
      && line[0..|lead|] == lead && line[|lead|..n] == q && line[n..n + |pad|] == pad
      && n + |pad| < |line| && line[n + |pad|] == '#' && (lead != "" ==> line[|lead| - 1] == lead[|lead| - 1])
  {
  }

  /** A comment behind a quoted scalar is dropped and the scalar kept, whatever
      both hold, as long as the scalar does not end in a backslash. */
  lemma CommentDropped(lead: string, s: string, pad: string, note: string)
    requires lead != "" && '"' !in lead && '#' !in lead && '\\' !in lead
    requires forall k :: 0 <= k < |pad| ==> IsTrailing(pad[k])
    requires !EndsInBackslash(s)
    ensures StripComment(lead + Quoted(s) + pad + "#" + note) == lead + Quoted(s)
  {
    hide Kept, Quoted, TrimRight, EndsInBackslash;
    var q := Quoted(s);
    var line, n := lead + q + pad + "#" + note, |lead| + |q|;
    DroppedParts(lead, q, pad, note);
    KeptPlain(line, 0, |lead|, lead, false);
    KeptQuoted(line, |lead|, s, n, false);
    KeptPlain(line, n, n + |pad|, pad, false);
    KeptComment(line, n + |pad|);
    Regroup(lead, q, pad, "");
    assert lead + q + pad + "" == lead + q + pad;
    QuotedEnds(s);
    TrimPad(lead + q, pad);
  }

  lemma KeptComment(line: string, i: nat)
    requires i < |line| && line[i] == '#'
    ensures Kept(line, i, false) == ""
  {
  }

  lemma {:induction false} TrimPad(head: string, pad: string)
    requires head != "" && !IsTrailing(head[|head| - 1])
    requires forall k :: 0 <= k < |pad| ==> IsTrailing(pad[k])
    ensures TrimRight(head + pad, IsTrailing) == head
  {
    if pad == "" {
      assert head + pad == head;
    } else {
      TrimPad(head, pad[..|pad| - 1]);
      assert (head + pad)[..|head + pad| - 1] == head + pad[..|pad| - 1];
    }
  }

  lemma EscapedHead(s: string)
    requires s != ""
    ensures var t, rest := Escaped(s) + "\"", Escaped(s[1..]) + "\"";
      if s[0] == '\\' || s[0] == '"' then |t| >= 2 && t[0] == '\\' && t[1] == s[0] && t[2..] == rest
      else t[0] == s[0] && t[1..] == rest
  {
    hide Escaped;
    var e := Escaped(s[1..]);
    EscapedNext(s);
    if s[0] == '\\' || s[0] == '"' {
      Ahead(['\\', s[0]], e);
    } else {
      Ahead([s[0]], e);
    }
  }

  lemma EscapedNext(s: string)
    requires s != ""
    ensures Escaped(s) == (if s[0] == '\\' || s[0] == '"' then ['\\', s[0]] else [s[0]]) + Escaped(s[1..])
  {
  }

  lemma Ahead(p: string, e: string)
    ensures var t := (p + e) + "\""; |t| >= |p| && t[|p|..] == e + "\"" && t[..|p|] == p
    ensures forall k :: 0 <= k < |p| ==> ((p + e) + "\"")[k] == p[k]
  {
  }

  lemma UnescapeOne(t: string, r: string)
    requires t != "" && t[0] != '\n'
    ensures t[0] == '\\' && |t| >= 2 && Escape(t[1]).Some? && Unescape(t[2..]) == Some(r)
      ==> Unescape(t) == Some([Escape(t[1]).value] + r)
    ensures t[0] != '\\' && t[0] != '"' && Unescape(t[1..]) == Some(r) ==> Unescape(t) == Some([t[0]] + r)
  {
  }

  lemma EscapeSelf()
    ensures Escape('\\') == Some('\\') && Escape('"') == Some('"')
  {
  }

  /** Quoting and unquoting cancel out on every scalar of one line. */
  lemma {:induction false} UnescapeEscaped(s: string)
    requires '\n' !in s
    ensures Unescape(Escaped(s) + "\"") == Some(s)
  {
    if s == "" {
      assert Escaped(s) + "\"" == "\"";
    } else {
      hide Escaped, Unescape, Escape;
      UnescapeEscaped(s[1..]);
      EscapeSelf();
      EscapedHead(s);
      UnescapeOne(Escaped(s) + "\"", s[1..]);
      assert s == [s[0]] + s[1..];
    }
  }

  lemma QuoteRoundTrip(s: string)
    requires '\n' !in s
    ensures Unquote(Quoted(s)) == s
  {
    UnescapeEscaped(s);
    assert Quoted(s)[1..] == Escaped(s) + "\"";
  }

  lemma KeptPlain(line: string, i: nat, j: nat, mid: string, q: bool)
    requires i <= j <= |line| && line[i..j] == mid && '"' !in mid && '#' !in mid
    ensures Kept(line, i, q) == mid + Kept(line, j, q)
  {
    assert forall k :: i <= k < j ==> line[k] == mid[k - i];
    KeptQuiet(line, i, j, q);
  }

  // ---------------------------------------------------------------- what a scalar means

  /** One character of a double-quoted scalar, as written and as meant. */
  datatype Bit = Same(c: char) | Esc(letter: char, meant: char)

  /** The escapes: bell, backspace, form feed, newline, carriage return, tab, vertical
      tab, and the backslash and the quote themselves. */
  predicate ValidBit(b: Bit) {
    match b
    case Same(c) => c != '"' && c != '\\' && c != '\n'
    case Esc(letter, meant) =>
      || (letter == 'a' && meant as int == 7) || (letter == 'b' && meant as int == 8)
      || (letter == 'f' && meant as int == 12) || (letter == 'n' && meant as int == 10)
      || (letter == 'r' && meant as int == 13) || (letter == 't' && meant as int == 9)
      || (letter == 'v' && meant as int == 11) || (letter == '\\' && meant == '\\')
      || (letter == '"' && meant == '"')
  }

  predicate ValidBits(bs: seq<Bit>) {
    forall b :: b in bs ==> ValidBit(b)
  }

  function BitText(b: Bit): string {
    match b case Same(c) => [c] case Esc(letter, _) => ['\\', letter]
  }

  function BitsText(bs: seq<Bit>): string {
    if bs == [] then "" else BitText(bs[0]) + BitsText(bs[1..])
  }

  function BitsMeant(bs: seq<Bit>): string {
    if bs == [] then "" else [match bs[0] case Same(c) => c case Esc(_, meant) => meant] + BitsMeant(bs[1..])
  }

  function Between(t: string): string {
    "\"" + t + "\""
  }

  lemma OneBit(b: Bit, t: string, r: string)
    requires ValidBit(b) && Unescape(t) == Some(r)
    ensures Unescape(BitText(b) + t) == Some([match b case Same(c) => c case Esc(_, meant) => meant] + r)
  {
    var u := BitText(b) + t;
    match b
    case Same(c) => assert u[0] == c && u[1..] == t;
    case Esc(letter, meant) =>
      assert u[0] == '\\' && u[1] == letter && u[2..] == t;
      assert Escape(letter) == Some(meant);
  }

  lemma {:induction false} BitsUnescape(bs: seq<Bit>)
    requires ValidBits(bs)
    ensures Unescape(BitsText(bs) + "\"") == Some(BitsMeant(bs))
    decreases bs
  {
    hide ValidBit, BitText, Unescape;
    if bs == [] {
      LastQuote();
      assert "" + "\"" == "\"";
    } else {
      assert bs[0] in bs;
      BitsUnescape(bs[1..]);
      OneBit(bs[0], BitsText(bs[1..]) + "\"", BitsMeant(bs[1..]));
      assert BitsText(bs) + "\"" == BitText(bs[0]) + (BitsText(bs[1..]) + "\"");
    }
  }

  lemma LastQuote()
    ensures Unescape("\"") == Some("")
  {
  }

  lemma {:induction false} BitsOf(t: string) returns (bs: seq<Bit>)
    requires Unescape(t).Some?
    ensures ValidBits(bs) && t == BitsText(bs) + "\""
    decreases t
  {
    bs := [];
    if t[0] == '"' {
      assert t == "\"";
    } else if t[0] == '\\' {
      var more := BitsOf(t[2..]);
      bs := [Esc(t[1], Escape(t[1]).value)] + more;
      assert bs[1..] == more && t == [t[0], t[1]] + t[2..];
    } else {
      var more := BitsOf(t[1..]);
      bs := [Same(t[0])] + more;
      assert bs[1..] == more && t == [t[0]] + t[1..];
    }
  }

  /** A double-quoted scalar means what its characters and escapes mean. */
  lemma DoubleMeans(bs: seq<Bit>)
    requires ValidBits(bs)
    ensures Unquote(Between(BitsText(bs))) == BitsMeant(bs)
  {
    hide BitsText, BitsMeant, Unescape, ValidBit;
    BitsUnescape(bs);
    assert Between(BitsText(bs))[1..] == BitsText(bs) + "\"";
  }

  /** What the unquoter makes of any text: in double quotes and well escaped, what is
      meant; otherwise in single quotes, what stands between them; otherwise the text. */
  lemma UnquoteMeans(v: string)
    ensures if exists bs :: ValidBits(bs) && v == Between(BitsText(bs)) then
        exists bs :: ValidBits(bs) && v == Between(BitsText(bs)) && Unquote(v) == BitsMeant(bs)
      else if |v| >= 2 && v[0] == '\'' && v[|v| - 1] == '\'' then
        Unquote(v) == v[1..|v| - 1]
      else Unquote(v) == v
  {
    hide BitsText, BitsMeant, Unescape, ValidBits;
    if bs :| ValidBits(bs) && v == Between(BitsText(bs)) {
      DoubleMeans(bs);
    } else if Enclosed(v, '"') && Unescape(v[1..]).Some? {
      var bs := EnclosedBits(v);
    }
  }

  lemma EnclosedBits(v: string) returns (bs: seq<Bit>)
    requires Enclosed(v, '"') && Unescape(v[1..]).Some?
    ensures ValidBits(bs) && v == Between(BitsText(bs))
  {
    hide BitsText, Unescape, ValidBits;
    bs := BitsOf(v[1..]);
    assert v == [v[0]] + v[1..];
  }

  // ---------------------------------------------------------------- plain and single-quoted scalars

  datatype Style = Plain | Single | Double

  /** A scalar as it is written in a catalogue. */
  function Shown(v: string, k: Style): string {
    match k
    case Plain => v
    case Single => "'" + v + "'"
    case Double => Quoted(v)
  }

  /** What can be written so: one line; without double quotes no `#`; and plainly, no
      blank at either end and no quote at the beginning. */
  predicate Showable(v: string, k: Style) {
    && '\n' !in v
    && (k.Double? || '#' !in v)
    && (k.Plain? && v != "" ==> Trimmed(v) && v[0] != '"' && v[0] != '\'')
  }

  lemma ShownRead(v: string, k: Style)
    requires Showable(v, k)
    ensures Unquote(Shown(v, k)) == v && Trimmed(Shown(v, k))
    ensures !k.Plain? ==> Shown(v, k) != ""
  {
    hide Unescape, Quoted;
    match k
    case Plain =>
    case Single => assert ("'" + v + "'")[1..|v| + 1] == v;
    case Double =>
      QuoteRoundTrip(v);
      QuotedEnds(v);
  }

  lemma {:induction false} KeptHashless(line: string, i: nat, q: bool)
    requires i <= |line| && forall k :: i <= k < |line| ==> line[k] != '#'
    ensures Kept(line, i, q) == line[i..]
    decreases |line| - i
  {
    if i < |line| {
      KeptHashless(line, i + 1, Toggled(line, i, q));
      assert line[i..] == [line[i]] + line[i + 1..];
    }
  }

  /** A line without `#` only loses blanks at its end. */
  lemma StripHashless(line: string)
    requires '#' !in line
    ensures StripComment(line) == TrimRight(line, IsTrailing)
  {
    KeptHashless(line, 0, false);
    assert line[0..] == line;
  }

  lemma TrailingBlank(c: char)
    ensures IsTrailing(c) ==> IsBlank(c)
  {
  }

  /** A scalar behind its key passes the comment stripper. */
  lemma StripShown(lead: string, v: string, k: Style)
    requires lead != "" && '"' !in lead && '#' !in lead && '\\' !in lead && !IsTrailing(lead[|lead| - 1])
    requires Showable(v, k)
    ensures StripComment(lead + " " + Shown(v, k)) ==
      if Shown(v, k) == "" then lead else lead + " " + Shown(v, k)
  {
    hide Quoted, Kept;
    var t, line := Shown(v, k), lead + " " + Shown(v, k);
    ShownRead(v, k);
    if k.Double? {
      StripScalar(lead + " ", v);
    } else {
      StripHashless(line);
      if t == "" {
        assert line == lead + " ";
        TrimPad(lead, " ");
      } else {
        TrailingBlank(line[|line| - 1]);
        assert line[|line| - 1] == t[|t| - 1];
      }
    }
  }
}
