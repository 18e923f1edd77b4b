/** The string functions of Go's library that slogen uses, on ASCII text. */
module GoStrings {

  predicate IsBlank(c: char) {
    c == ' ' || c == '\t' || c == '\n' || c == '\r' || c as int == 0x0B || c as int == 0x0C
  }

  function TrimLeft(s: string): (r: string)
    ensures r != "" ==> !IsBlank(r[0])
  {
    if s != "" && IsBlank(s[0]) then TrimLeft(s[1..]) else s
  }

  function TrimRight(s: string, p: char -> bool): (r: string)
    ensures r <= s
    ensures r != "" ==> !p(r[|r| - 1])
  {
    if s != "" && p(s[|s| - 1]) then TrimRight(s[..|s| - 1], p) else s
  }

  function TrimSpace(s: string): string {
    TrimRight(TrimLeft(s), IsBlank)
  }

  predicate HasPrefix(s: string, prefix: string) {
    prefix <= s
  }

  /** The offset of the first `c`, or the length. */
  function IndexOf(s: string, c: char): (n: nat)
    ensures n <= |s|
    ensures n < |s| ==> s[n] == c
    ensures forall k :: 0 <= k < n ==> s[k] != c
  {
    if s == "" || s[0] == c then 0 else 1 + IndexOf(s[1..], c)
  }

  /** `strings.Cut`: the text before and after the first `c`. */
  function Before(s: string, c: char): string {
    s[..IndexOf(s, c)]
  }

  function Behind(s: string, c: char): string {
    var n := IndexOf(s, c);
    if n < |s| then s[n + 1..] else ""
  }

  /** `strings.Split` on one character. */
  function Split(s: string, c: char): (parts: seq<string>)
    ensures parts != []
    decreases |s|
  {
    var n := IndexOf(s, c);
    if n < |s| then [s[..n]] + Split(s[n + 1..], c) else [s]
  }

  function Join(parts: seq<string>, sep: string): string {
    if parts == [] then "" else if |parts| == 1 then parts[0] else parts[0] + sep + Join(parts[1..], sep)
  }

  /** The lines `bufio.Scanner` delivers: cut at newlines, one trailing carriage
      return dropped, no empty line after a final newline. */
  function Lines(s: string): seq<string>
    decreases |s|
  {
    if s == "" then []
    else
      var n := IndexOf(s, '\n');
      [DropCr(s[..n])] + if n < |s| then Lines(s[n + 1..]) else []
  }

  function DropCr(s: string): string {
    if s != "" && s[|s| - 1] == '\r' then s[..|s| - 1] else s
  }

  // ---------------------------------------------------------------- facts

  lemma {:induction false} IndexIs(s: string, c: char, n: nat)
    requires n < |s| && s[n] == c && forall k :: 0 <= k < n ==> s[k] != c
    ensures IndexOf(s, c) == n
  {
    if n > 0 {
      IndexIs(s[1..], c, n - 1);
    }
  }

  lemma {:induction false} IndexNone(s: string, c: char)
    requires c !in s
    ensures IndexOf(s, c) == |s|
  {
    if s != "" {
      IndexNone(s[1..], c);
    }
  }

  lemma CutAt(head: string, c: char, tail: string)
    requires c !in head
    ensures Before(head + [c] + tail, c) == head && Behind(head + [c] + tail, c) == tail
  {
    IndexIs(head + [c] + tail, c, |head|);
  }

  /** Nothing to trim at either end. */
  predicate Trimmed(s: string) {
    s != "" ==> !IsBlank(s[0]) && !IsBlank(s[|s| - 1])
  }

  lemma TrimTrimmed(s: string)
    requires Trimmed(s)
    ensures TrimSpace(s) == s && TrimSpace(" " + s) == s
  {
    assert (" " + s)[1..] == s;
  }

  lemma SplitOne(s: string, c: char)
    requires c !in s
    ensures Split(s, c) == [s]
  {
    IndexNone(s, c);
  }

  lemma SplitCons(head: string, c: char, tail: string)
    requires c !in head
    ensures Split(head + [c] + tail, c) == [head] + Split(tail, c)
  {
    var s := head + [c] + tail;
    IndexIs(s, c, |head|);
    assert s[..|head|] == head && s[|head| + 1..] == tail;
  }

  /** A text of whole lines is cut back into those lines. */
  function Unlines(lines: seq<string>): string {
    if lines == [] then "" else lines[0] + "\n" + Unlines(lines[1..])
  }

  lemma {:induction false} LinesUnlines(lines: seq<string>)
    requires forall l :: l in lines ==> '\n' !in l && DropCr(l) == l
    ensures Lines(Unlines(lines)) == lines
  {
    if lines != [] {
      var l, rest := lines[0], Unlines(lines[1..]);
      assert l in lines;
      LinesUnlines(lines[1..]);
      var s := l + "\n" + rest;
      IndexIs(s, '\n', |l|);
      assert s[..|l|] == l && s[|l| + 1..] == rest;
    }
  }

  // ---------------------------------------------------------------- what trimming leaves

  /** Blanks of ASCII text. */
  predicate Blanks(t: string) {
    forall k :: 0 <= k < |t| ==>
      t[k] == ' ' || t[k] == '\t' || t[k] == '\n' || t[k] == '\r' || t[k] == '\U{0b}' || t[k] == '\U{0c}'
  }

  lemma {:induction false} TrimLeftBlanks(a: string, m: string)
    requires Blanks(a) && (m != "" ==> !Blanks([m[0]]))
    ensures TrimLeft(a + m) == m
    decreases a
  {
    if a == "" {
      assert a + m == m;
      assert m != "" ==> [m[0]][0] == m[0];
    } else {
      assert (a + m)[1..] == a[1..] + m;
      assert forall k :: 0 <= k < |a[1..]| ==> a[1..][k] == a[k + 1];
      TrimLeftBlanks(a[1..], m);
    }
  }

  lemma {:induction false} TrimRightBlanks(m: string, b: string)
    requires Blanks(b) && (m != "" ==> !Blanks([m[|m| - 1]]))
    ensures TrimRight(m + b, IsBlank) == m
    decreases b
  {
    if b == "" {
      assert m + b == m;
      assert m != "" ==> [m[|m| - 1]][0] == m[|m| - 1];
    } else {
      assert (m + b)[..|m + b| - 1] == m + b[..|b| - 1];
      TrimRightBlanks(m, b[..|b| - 1]);
    }
  }

  /** Trimming leaves what stands between the blanks at both ends. */
  lemma TrimSpaceIs(a: string, m: string, b: string)
    requires Blanks(a) && Blanks(b) && (m != "" ==> !Blanks([m[0]]) && !Blanks([m[|m| - 1]]))
    ensures TrimSpace(a + m + b) == m
  {
    if m == "" {
      assert a + m + b == (a + b) + "";
      TrimLeftBlanks(a + b, "");
    } else {
      assert a + m + b == a + (m + b);
      TrimLeftBlanks(a, m + b);
      TrimRightBlanks(m, b);
    }
  }

  /** Lines that end in a carriage return and a newline are cut back without either. */
  lemma {:induction false} LinesCrLf(lines: seq<string>)
    requires forall l :: l in lines ==> '\n' !in l
    ensures Lines(CrLfText(lines)) == lines
    decreases lines
  {
    hide Lines;
    if lines == [] {
      NoLines();
    } else {
      assert lines[0] in lines;
      LinesCrLf(lines[1..]);
      LineCrLf(lines[0], CrLfText(lines[1..]));
    }
  }

  /** The lines, each behind the other with a carriage return and a newline. */
  function CrLfText(lines: seq<string>): string {
    if lines == [] then "" else lines[0] + "\r" + "\n" + CrLfText(lines[1..])
  }

  lemma NoLines()
    ensures Lines("") == []
  {
  }

  lemma LineCrLf(l: string, rest: string)
    requires '\n' !in l
    ensures Lines(l + "\r" + "\n" + rest) == [l] + Lines(rest)
  {
    var s := l + "\r" + "\n" + rest;
    IndexIs(s, '\n', |l| + 1);
    assert s[..|l| + 1] == l + "\r" && s[|l| + 2..] == rest;
    assert (l + "\r")[..|l|] == l;
  }
}
