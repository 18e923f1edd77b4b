/**
 Scoping in scripts/migrate_grafana_signal_log.py: the backward scan for the
 innermost subquery around a position, and the collection of subquery aliases, both
 against one forward parse with a stack of open parentheses.
*/
module SelectScope {
  import opened Wrappers
  import opened PyStrings

  // ---------------------------------------------------------------- the reference parse

  /** The parentheses open before position `n`, outermost first. A closing one with
      nothing to close is ignored. */
  function Open(sql: string, n: nat): (s: seq<nat>)
    requires n <= |sql|
    ensures |s| <= n
    ensures forall k :: 0 <= k < |s| ==> s[k] < n && sql[s[k]] == '('
  {
    if n == 0 then []
    else
      var s := Open(sql, n - 1);
      if sql[n - 1] == '(' then s + [n - 1]
      else if sql[n - 1] == ')' && s != [] then s[..|s| - 1]
      else s
  }

  predicate Increasing(s: seq<nat>) {
    forall k, l :: 0 <= k < l < |s| ==> s[k] < s[l]
  }

  lemma {:induction false} OpenIncreasing(sql: string, n: nat)
    requires n <= |sql|
    ensures Increasing(Open(sql, n))
  {
    if n > 0 {
      OpenIncreasing(sql, n - 1);
    }
  }

  // ---------------------------------------------------------------- words

  function Upper(c: char): char {
    if 'a' <= c <= 'z' then 'A' + (c - 'a') else c
  }

  function UpperAll(s: string): (r: string)
    ensures |r| == |s|
  {
    seq(|s|, i requires 0 <= i < |s| => Upper(s[i]))
  }

  predicate IsWord(c: char) {
    'a' <= c <= 'z' || 'A' <= c <= 'Z' || '0' <= c <= '9' || c == '_'
  }

  function SkipSpace(s: string, i: nat): (r: nat)
    requires i <= |s|
    ensures i <= r <= |s|
    decreases |s| - i
  {
    if i < |s| && IsSpace(s[i]) then SkipSpace(s, i + 1) else i
  }

  function SkipWord(s: string, i: nat): (r: nat)
    requires i <= |s|
    ensures i <= r <= |s|
    decreases |s| - i
  {
    if i < |s| && IsWord(s[i]) then SkipWord(s, i + 1) else i
  }

  function Min(a: nat, b: nat): nat {
    if a <= b then a else b
  }

  /** The characters from `i` on, `n` at most, as a slice takes them. */
  function Taken(s: string, i: nat, n: nat): string
    requires i <= |s|
  {
    s[i..Min(i + n, |s|)]
  }

  /** A parenthesis followed by the letters SELECT, whatever comes behind them. */
  predicate SelectAt(sql: string, i: nat)
    requires i < |sql|
  {
    UpperAll(Taken(sql, SkipSpace(sql, i + 1), 6)) == "SELECT"
  }

  /** A parenthesis followed by the word SELECT. */
  predicate SelectWord(sql: string, i: nat)
    requires i < |sql|
  {
    var j := SkipSpace(sql, i + 1);
    SelectAt(sql, i) && (j + 6 >= |sql| || !IsWord(sql[j + 6]))
  }

  // ---------------------------------------------------------------- the enclosing scope

  /** The topmost entry of the stack that opens a subquery. */
  function TopSelect(sql: string, s: seq<nat>): (r: Option<nat>)
    requires forall k :: 0 <= k < |s| ==> s[k] < |sql|
    ensures r.Some? ==> r.value in s
  {
    if s == [] then None
    else if SelectAt(sql, s[|s| - 1]) then Some(s[|s| - 1])
    else TopSelect(sql, s[..|s| - 1])
  }

  lemma {:induction false} TopSelectIs(sql: string, s: seq<nat>)
    requires forall k :: 0 <= k < |s| ==> s[k] < |sql|
    requires Increasing(s)
    ensures match TopSelect(sql, s)
      case None => forall x :: x in s ==> !SelectAt(sql, x)
      case Some(i) => SelectAt(sql, i) && forall x :: x in s && x > i ==> !SelectAt(sql, x)
    decreases s
  {
    hide SelectAt;
    if s != [] {
      TopSelectIs(sql, s[..|s| - 1]);
      assert s == s[..|s| - 1] + [s[|s| - 1]];
    }
  }

  /** The stack without its `d` topmost entries. */
  function Below(s: seq<nat>, d: nat): (r: seq<nat>)
    ensures forall x :: x in r ==> x in s
    ensures r <= s
  {
    if d < |s| then s[..|s| - d] else []
  }

  /** The backward scan from `i` with `d` closing parentheses pending. */
  function Back(sql: string, i: nat, d: nat): Option<nat>
    requires i <= |sql|
  {
    if i == 0 then None
    else if sql[i - 1] == ')' then Back(sql, i - 1, d + 1)
    else if sql[i - 1] == '(' then
      if d == 0 then if SelectAt(sql, i - 1) then Some(i - 1) else Back(sql, i - 1, 0)
      else Back(sql, i - 1, d - 1)
    else Back(sql, i - 1, d)
  }

  lemma BelowPop(s: seq<nat>, d: nat)
    ensures Below(s, d + 1) == Below(if s == [] then s else s[..|s| - 1], d)
  {
  }

  lemma BelowPush(s: seq<nat>, x: nat, d: nat)
    ensures Below(s + [x], d) == if d == 0 then s + [x] else Below(s, d - 1)
    ensures Below(s, 0) == s
  {
  }

  lemma TopSelectNone(sql: string, s: seq<nat>)
    requires s == []
    ensures TopSelect(sql, s) == None
  {
  }

  lemma TopPush(sql: string, s: seq<nat>, x: nat)
    requires x < |sql| && forall k :: 0 <= k < |s| ==> s[k] < |sql|
    ensures TopSelect(sql, s + [x]) == if SelectAt(sql, x) then Some(x) else TopSelect(sql, s)
  {
    hide SelectAt;
    assert (s + [x])[..|s|] == s;
  }

  lemma OpenStep(sql: string, i: nat)
    requires i <= |sql|
    ensures i == 0 ==> Open(sql, i) == []
    ensures i > 0 ==>
      var s := Open(sql, i - 1);
      Open(sql, i) == if sql[i - 1] == '(' then s + [i - 1]
                      else if sql[i - 1] == ')' && s != [] then s[..|s| - 1] else s
  {
  }

  lemma NoneBelow(d: nat)
    ensures Below([], d) == []
  {
  }

  /** Going backwards, the scan meets the open parentheses from the top of the stack
      down, unbalanced text included. */
  lemma {:induction false} BackIsTop(sql: string, i: nat, d: nat)
    requires i <= |sql|
    ensures Back(sql, i, d) == TopSelect(sql, Below(Open(sql, i), d))
    decreases i
  {
    hide SelectAt, Below, TopSelect, Open;
    OpenStep(sql, i);
    if i == 0 {
      NoneBelow(d);
      TopSelectNone(sql, Below([], d));
    } else {
      var before := Open(sql, i - 1);
      if sql[i - 1] == ')' {
        BackIsTop(sql, i - 1, d + 1);
        BelowPop(before, d);
      } else if sql[i - 1] == '(' {
        BackIsTop(sql, i - 1, if d == 0 then 0 else d - 1);
        BelowPush(before, i - 1, d);
        TopPush(sql, before, i - 1);
      } else {
        BackIsTop(sql, i - 1, d);
      }
    }
  }

  /** The forward scan for the end of a group, `d` parentheses being open. */
  function Forward(sql: string, i: nat, d: nat): (r: nat)
    requires i <= |sql|
    ensures i <= r <= |sql|
    decreases |sql| - i
  {
    if i == |sql| then i
    else if sql[i] == '(' then Forward(sql, i + 1, d + 1)
    else if sql[i] == ')' then if d <= 1 then i else Forward(sql, i + 1, d - 1)
    else Forward(sql, i + 1, d)
  }

  /** The end of the group opened at `i`. */
  function GroupEnd(sql: string, i: nat): nat
    requires i < |sql|
  {
    Forward(sql, i + 1, 1)
  }

  /** Where the group opened at `i`, `h` others being open around it, stands open:
      from `j` on up to the end the scan finds, and no longer. */
  lemma {:induction false} ForwardIsOpen(sql: string, i: nat, h: nat, j: nat, p: nat)
    requires i < j <= p <= |sql| && h < |Open(sql, j)| && Open(sql, j)[h] == i
    ensures i in Open(sql, p) <==> p <= Forward(sql, j, |Open(sql, j)| - h)
    decreases |sql| - j
  {
    hide Open;
    if j < p {
      OpenStep(sql, j + 1);
      var s, next := Open(sql, j), Open(sql, j + 1);
      if sql[j] == ')' && |s| - h == 1 {
        OpenIncreasing(sql, j);
        assert i !in next;
        NeverAgain(sql, i, j + 1, p);
      } else {
        assert next[h] == i;
        ForwardIsOpen(sql, i, h, j + 1, p);
      }
    }
  }

  /** A closed group stays closed. */
  lemma {:induction false} NeverAgain(sql: string, i: nat, j: nat, p: nat)
    requires i < j <= p <= |sql| && i !in Open(sql, j)
    ensures i !in Open(sql, p)
    decreases p
  {
    if j < p {
      NeverAgain(sql, i, j, p - 1);
    }
  }

  /** The body of a group is exactly where it stands open. */
  lemma GroupIsOpen(sql: string, i: nat, p: nat)
    requires i < |sql| && sql[i] == '(' && p <= |sql|
    ensures i in Open(sql, p) <==> i < p <= GroupEnd(sql, i)
  {
    var s := Open(sql, i + 1);
    assert s[|s| - 1] == i;
    if i < p {
      ForwardIsOpen(sql, i, |s| - 1, i + 1, p);
    }
  }

  /** The body of the group opened at `top`, or the whole text. */
  function Scope(sql: string, top: Option<nat>): string
    requires top.Some? ==> top.value < |sql|
  {
    match top
    case None => sql
    case Some(i) => sql[i + 1..GroupEnd(sql, i)]
  }

  /** `_enclosing_scope`: the scope around `pos`. */
  method EnclosingScope(sql: string, pos: nat) returns (r: string)
    requires pos <= |sql|
    ensures r == Scope(sql, TopSelect(sql, Open(sql, pos)))
  {
    hide SelectAt, TopSelect, Open;
    BackIsTop(sql, pos, 0);
    BelowNone(Open(sql, pos));
    var depth, start, i := 0, 0, pos;
    while i > 0 && start == 0
      invariant 0 <= i <= pos && depth >= 0
      invariant start == 0 ==> Back(sql, i, depth) == Back(sql, pos, 0)
      invariant start > 0 ==> start <= |sql| && Back(sql, pos, 0) == Some(start - 1)
      decreases i
    {
      i := i - 1;
      var c := sql[i];
      if c == ')' {
        depth := depth + 1;
      } else if c == '(' {
        if depth == 0 {
          if SelectAt(sql, i) {
            start := i + 1;
          }
        } else {
          depth := depth - 1;
        }
      }
    }
    if start == 0 {
      return sql;
    }
    depth := 1;
    var j := start;
    while j < |sql|
      invariant start <= j <= |sql| && depth >= 1
      invariant Forward(sql, j, depth) == Forward(sql, start, 1)
    {
      var c := sql[j];
      if c == '(' {
        depth := depth + 1;
      } else if c == ')' {
        depth := depth - 1;
        if depth == 0 {
          break;
        }
      }
      j := j + 1;
    }
    return sql[start..j];
  }

  lemma BelowNone(s: seq<nat>)
    ensures Below(s, 0) == s
  {
  }

  /** What the scope is: the whole text exactly when no subquery is open at `pos`, and
      otherwise the body of the innermost open one, which holds `pos`; a group is open
      before a position just when the position lies in its body. */
  lemma ScopeIsInnermost(sql: string, pos: nat)
    requires pos <= |sql|
    ensures var top := TopSelect(sql, Open(sql, pos));
      && (top == None <==> forall i :: 0 <= i < pos && SelectAt(sql, i) && sql[i] == '(' ==> GroupEnd(sql, i) < pos)
      && (top.Some? ==>
            var i := top.value;
            && i < |sql| && sql[i] == '(' && SelectAt(sql, i) && i < pos <= GroupEnd(sql, i)
            && sql[i + 1..GroupEnd(sql, i)] != sql
            && forall k :: i < k < pos && SelectAt(sql, k) && sql[k] == '(' ==> GroupEnd(sql, k) < pos)
  {
    hide SelectAt;
    var s := Open(sql, pos);
    forall i | 0 <= i < pos && sql[i] == '(' ensures i in s <==> pos <= GroupEnd(sql, i) {
      GroupIsOpen(sql, i, pos);
    }
    OpenIncreasing(sql, pos);
    TopSelectIs(sql, s);
    var top := TopSelect(sql, s);
    if top.Some? {
      assert |sql[top.value + 1..GroupEnd(sql, top.value)]| < |sql|;
    }
  }

  // ---------------------------------------------------------------- letters or word

  /** The topmost entry that opens a subquery, the letters having to be a whole word. */
  function TopWord(sql: string, s: seq<nat>): (r: Option<nat>)
    requires forall k :: 0 <= k < |s| ==> s[k] < |sql|
    ensures r.Some? ==> r.value in s
  {
    if s == [] then None
    else if SelectWord(sql, s[|s| - 1]) then Some(s[|s| - 1])
    else TopWord(sql, s[..|s| - 1])
  }

  /** A longer word behind a parenthesis that the scan stops at. */
  predicate Misread(sql: string, top: Option<nat>) {
    top.Some? && top.value < |sql| && !SelectWord(sql, top.value)
  }

  lemma {:induction false} TopsAgree(sql: string, s: seq<nat>)
    requires Increasing(s) && forall k :: 0 <= k < |s| ==> s[k] < |sql|
    ensures var top, word := TopSelect(sql, s), TopWord(sql, s);
      if Misread(sql, top) then word.Some? ==> word.value < top.value else word == top
    decreases s
  {
    hide SelectAt;
    if s != [] {
      var x, rest := s[|s| - 1], s[..|s| - 1];
      TopsAgree(sql, rest);
    }
  }

  /** While a group stands open, so do those it was opened in. */
  lemma {:induction false} OuterStaysOpen(sql: string, o: nat, i: nat, p: nat)
    requires o < i < p <= |sql| && o in Open(sql, i) && i in Open(sql, p)
    ensures o in Open(sql, p)
    decreases p
  {
    OpenIncreasing(sql, p - 1);
    if i + 1 < p {
      OuterStaysOpen(sql, o, i, p - 1);
    }
  }

  /** Of two groups open at one place the outer one has the longer body. */
  lemma OuterIsLonger(sql: string, o: nat, i: nat, pos: nat)
    requires pos <= |sql| && o < i && o in Open(sql, pos) && i in Open(sql, pos)
    ensures GroupEnd(sql, i) - i < GroupEnd(sql, o) - o
  {
    if o !in Open(sql, i) {
      NeverAgain(sql, o, i, pos);
    }
    GroupIsOpen(sql, i, pos);
    var end := GroupEnd(sql, i);
    GroupIsOpen(sql, i, end);
    OuterStaysOpen(sql, o, i, end);
    GroupIsOpen(sql, o, end);
  }

  ghost predicate ScopesAgree(sql: string, pos: nat)
    requires pos <= |sql|
  {
    Scope(sql, TopSelect(sql, Open(sql, pos))) == Scope(sql, TopWord(sql, Open(sql, pos)))
  }

  /** The scope found is the one of the innermost group that opens with the word SELECT,
      unless the innermost group that opens with these letters opens with a longer word. */
  lemma ScopesAgreeIff(sql: string, pos: nat)
    requires pos <= |sql|
    ensures ScopesAgree(sql, pos) <==> !Misread(sql, TopSelect(sql, Open(sql, pos)))
  {
    hide SelectAt, SelectWord, TopSelect, TopWord;
    var s := Open(sql, pos);
    OpenIncreasing(sql, pos);
    TopsAgree(sql, s);
    var top, word := TopSelect(sql, s), TopWord(sql, s);
    if Misread(sql, top) && word.Some? {
      OuterIsLonger(sql, word.value, top.value, pos);
      assert |Scope(sql, top)| < |Scope(sql, word)|;
    } else if Misread(sql, top) {
      assert |Scope(sql, top)| < |sql|;
    }
  }

  predicate LongerWordAt(sql: string, i: nat) {
    i < |sql| && sql[i] == '(' && SelectAt(sql, i) && !SelectWord(sql, i)
  }

  lemma DisagreeAt(sql: string, pos: nat) returns (i: nat)
    requires pos <= |sql| && !ScopesAgree(sql, pos)
    ensures LongerWordAt(sql, i)
  {
    hide SelectAt, SelectWord, TopWord, Scope, TopSelect;
    ScopesAgreeIff(sql, pos);
    OpenIncreasing(sql, pos);
    TopSelectIs(sql, Open(sql, pos));
    return TopSelect(sql, Open(sql, pos)).value;
  }

  lemma DisagreeBehind(sql: string, i: nat)
    requires LongerWordAt(sql, i)
    ensures !ScopesAgree(sql, i + 1)
  {
    hide SelectAt, SelectWord, TopWord, Scope, TopSelect;
    ScopesAgreeIff(sql, i + 1);
    TopPush(sql, Open(sql, i), i);
  }

  /** The two agree at every position of a text just when behind no parenthesis the
      letters begin a longer word. */
  lemma ScopesAlwaysAgreeIff(sql: string)
    ensures (forall pos: nat :: pos <= |sql| ==> ScopesAgree(sql, pos)) <==>
            (forall i: nat :: i < |sql| ==> !LongerWordAt(sql, i))
  {
    hide LongerWordAt, ScopesAgree;
    forall pos: nat | pos <= |sql| && !ScopesAgree(sql, pos)
      ensures exists i: nat :: i < |sql| && LongerWordAt(sql, i)
    {
      var i := DisagreeAt(sql, pos);
      Inside(sql, i);
    }
    forall i: nat | i < |sql| && LongerWordAt(sql, i)
      ensures !ScopesAgree(sql, i + 1)
    {
      DisagreeBehind(sql, i);
    }
  }

  lemma Inside(sql: string, i: nat)
    requires LongerWordAt(sql, i)
    ensures i < |sql|
  {
  }

  lemma {:induction false} NothingOpens(sql: string, i: nat, n: nat)
    requires i <= n <= |sql| && forall k :: i <= k < n ==> sql[k] != '(' && sql[k] != ')'
    ensures Open(sql, n) == Open(sql, i)
    decreases n
  {
    if i < n {
      NothingOpens(sql, i, n - 1);
    }
  }

  function LongerWord(): string { "(SELECTED x" }

  /** A longer word: the text is no subquery, yet its inside is taken for a scope. */
  lemma LongerWordMisread()
    ensures var sql := LongerWord();
      && |sql| == 11 && LongerWordAt(sql, 0) && !ScopesAgree(sql, 11)
      && Scope(sql, TopSelect(sql, Open(sql, 11))) == "SELECTED x"
  {
    hide SelectAt, SelectWord, TopWord, TopSelect, Open, LongerWord, ScopesAgree;
    var sql := LongerWord();
    LongerWordOpen();
    LongerWordLetters();
    LongerWordBody();
    ScopesAgreeIff(sql, 11);
    TopPush(sql, [], 0);
    GroupIsOpen(sql, 0, 11);
    assert [] + [0] == [0];
  }

  lemma LongerWordBody()
    ensures var sql := LongerWord(); |sql| == 11 && sql[0] == '(' && sql[1..11] == "SELECTED x"
  {
    assert LongerWord() == "(" + "SELECTED x";
  }

  lemma LongerWordOpen()
    ensures var sql := LongerWord(); |sql| == 11 && Open(sql, 11) == [0]
  {
    var sql := LongerWord();
    assert Open(sql, 0) == [] && Open(sql, 1) == [0];
    NothingOpens(sql, 1, 11);
  }

  lemma LongerWordLetters()
    ensures var sql := LongerWord(); SelectAt(sql, 0) && !SelectWord(sql, 0)
  {
    var sql := LongerWord();
    assert sql[1] == 'S' && SkipSpace(sql, 1) == 1;
    assert Taken(sql, 1, 6) == "SELECT";
    assert sql[7] == 'E';
  }

  // ---------------------------------------------------------------- subquery aliases

  const KEYWORDS := {
    "AS", "ON", "WHERE", "GROUP", "ORDER", "JOIN", "LEFT", "RIGHT", "FULL", "INNER", "CROSS", "UNION",
    "SELECT", "FROM", "AND", "OR", "NOT", "WITH", "HAVING", "LIMIT", "OFFSET", "WINDOW", "USING", "RETURNING"}

  /** The alias that follows a closing parenthesis at `i`, if any. */
  function AliasAfter(sql: string, i: nat): Option<string>
    requires i < |sql|
  {
    var j := SkipSpace(sql, i + 1);
    var named := UpperAll(Taken(sql, j, 2)) == "AS" && j + 2 < |sql| && IsSpace(sql[j + 2]);
    var start := if named then SkipSpace(sql, j + 2) else j;
    var end := SkipWord(sql, start);
    if end > start && UpperAll(sql[start..end]) !in KEYWORDS then Some(sql[start..end]) else None
  }

  /** `j` closes a subquery: the innermost parenthesis open before it is followed by
      the word SELECT. */
  predicate ClosesSelect(sql: string, j: nat)
    requires j < |sql|
  {
    var s := Open(sql, j);
    sql[j] == ')' && s != [] && SelectWord(sql, s[|s| - 1])
  }

  predicate IsAlias(sql: string, j: nat, alias: string)
    requires j < |sql|
  {
    ClosesSelect(sql, j) && AliasAfter(sql, j) == Some(alias)
  }

  predicate AliasBefore(sql: string, n: nat, alias: string)
    requires n <= |sql|
  {
    exists j :: 0 <= j < n && IsAlias(sql, j, alias)
  }

  lemma AliasStep(sql: string, i: nat)
    requires i < |sql|
    ensures forall a :: AliasBefore(sql, i + 1, a) <==> AliasBefore(sql, i, a) || IsAlias(sql, i, a)
  {
    hide IsAlias;
  }

  function Flags(sql: string, s: seq<nat>): (r: seq<bool>)
    requires forall k :: 0 <= k < |s| ==> s[k] < |sql|
    ensures |r| == |s|
  {
    seq(|s|, k requires 0 <= k < |s| => SelectWord(sql, s[k]))
  }

  /** The parenthesis loop of `_collect_subquery_aliases`. */
  method CollectDerivedAliases(sql: string) returns (aliases: set<string>)
    ensures forall a :: a in aliases <==> AliasBefore(sql, |sql|, a)
  {
    hide SelectWord, AliasAfter, AliasBefore;
    NoAliasYet(sql);
    aliases := {};
    var stack: seq<bool> := [];
    var i := 0;
    while i < |sql|
      invariant i <= |sql|
      invariant stack == Flags(sql, Open(sql, i))
      invariant forall a :: a in aliases <==> AliasBefore(sql, i, a)
    {
      var c := sql[i];
      AliasStep(sql, i);
      if c == '(' {
        stack := stack + [SelectWord(sql, i)];
      } else if c == ')' {
        var wasSelect := false;
        if |stack| > 0 {
          wasSelect := stack[|stack| - 1];
          stack := stack[..|stack| - 1];
        }
        if wasSelect {
          var alias := AliasAfter(sql, i);
          if alias.Some? {
            aliases := aliases + {alias.value};
          }
        }
      }
      i := i + 1;
    }
  }

  lemma NoAliasYet(sql: string)
    ensures forall a :: !AliasBefore(sql, 0, a)
  {
  }

  /** The positions at which aliases are looked for are the ends of the subqueries that
      are closed at all. */
  lemma ClosersAreEnds(sql: string, j: nat)
    requires j < |sql|
    ensures ClosesSelect(sql, j) <==>
      exists i :: 0 <= i < j && sql[i] == '(' && SelectWord(sql, i) && GroupEnd(sql, i) == j
  {
    hide SelectWord;
    var s := Open(sql, j);
    if ClosesSelect(sql, j) {
      var i := s[|s| - 1];
      OpenIncreasing(sql, j);
      GroupIsOpen(sql, i, j);
      GroupIsOpen(sql, i, j + 1);
      assert GroupEnd(sql, i) == j;
    }
    forall i | 0 <= i < j && sql[i] == '(' && SelectWord(sql, i) && GroupEnd(sql, i) == j
      ensures ClosesSelect(sql, j)
    {
      GroupIsOpen(sql, i, j);
      GroupIsOpen(sql, i, j + 1);
    }
  }
}
