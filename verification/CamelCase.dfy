/**
 Camel-casing of snake-case names, as cmd/slogen (alert names) and
 cmd/protogen-tesla (Go field names) do it, and when two names collide.
*/
module CamelCase {
  import opened GoStrings

  predicate IsLower(c: char) {
    'a' <= c <= 'z'
  }

  predicate IsUpper(c: char) {
    'A' <= c <= 'Z'
  }

  function Upper(c: char): char {
    if IsLower(c) then 'A' + (c - 'a') else c
  }

  function Lower(c: char): char {
    if IsUpper(c) then 'a' + (c - 'A') else c
  }

  /** Underscores go, and the character behind one is raised; `up` says whether the
      next character is to be raised. */
  function Camel(s: string, up: bool): string {
    if s == "" then ""
    else if s[0] == '_' then Camel(s[1..], true)
    else [if up then Upper(s[0]) else s[0]] + Camel(s[1..], false)
  }

  // ---------------------------------------------------------------- the two programs

  function RaiseFirst(p: string): string {
    if p == "" then p else [Upper(p[0])] + p[1..]
  }

  function RaiseAll(parts: seq<string>): (r: seq<string>)
    ensures |r| == |parts|
  {
    seq(|parts|, i requires 0 <= i < |parts| => RaiseFirst(parts[i]))
  }

  lemma {:induction false} CamelWord(p: string)
    requires '_' !in p
    ensures Camel(p, true) == RaiseFirst(p) && Camel(p, false) == p
    decreases p
  {
    if p != "" {
      CamelWord(p[1..]);
      assert p == [p[0]] + p[1..];
    }
  }

  lemma {:induction false} CamelCut(head: string, tail: string, up: bool)
    requires '_' !in head
    ensures Camel(head + ['_'] + tail, up) == Camel(head, up) + Camel(tail, true)
    decreases head
  {
    var s := head + ['_'] + tail;
    if head == "" {
      assert s[1..] == tail;
    } else {
      assert s[1..] == head[1..] + ['_'] + tail;
      CamelCut(head[1..], tail, false);
    }
  }

  lemma RaiseCons(p: string, parts: seq<string>)
    requires parts != []
    ensures Join(RaiseAll([p] + parts), "") == RaiseFirst(p) + Join(RaiseAll(parts), "")
  {
    hide RaiseFirst;
    assert RaiseAll([p] + parts)[1..] == RaiseAll(parts);
    assert RaiseFirst(p) + "" == RaiseFirst(p);
  }

  lemma {:induction false} CamelParts(s: string)
    ensures Camel(s, true) == Join(RaiseAll(Split(s, '_')), "")
    decreases |s|
  {
    hide Camel, RaiseFirst;
    var n := IndexOf(s, '_');
    if n < |s| {
      hide RaiseAll, Join;
      var head, tail := s[..n], s[n + 1..];
      assert s == head + ['_'] + tail;
      CamelCut(head, tail, true);
      CamelWord(head);
      CamelParts(tail);
      RaiseCons(head, Split(tail, '_'));
    } else {
      CamelWord(s);
    }
  }

  /** `camelCase` of cmd/slogen: the parts are raised in place and joined. */
  method CamelCase(s: string) returns (r: string)
    ensures r == Camel(s, true)
  {
    hide Split, Join, Camel;
    var parts := Split(s, '_');
    ghost var split := parts;
    for i := 0 to |parts|
      invariant |parts| == |split|
      invariant forall k :: 0 <= k < i ==> parts[k] == RaiseFirst(split[k])
      invariant forall k :: i <= k < |parts| ==> parts[k] == split[k]
    {
      var p := parts[i];
      if p != "" {
        parts := parts[i := [Upper(p[0])] + p[1..]];
      }
    }
    assert parts == RaiseAll(split);
    CamelParts(s);
    return Join(parts, "");
  }

  lemma {:induction false} JoinLast(parts: seq<string>, p: string)
    ensures Join(parts + [p], "") == Join(parts, "") + p
    decreases parts
  {
    if |parts| > 1 {
      JoinLast(parts[1..], p);
      assert (parts + [p])[1..] == parts[1..] + [p];
    } else if |parts| == 1 {
      assert (parts + [p])[1..] == [p];
    }
  }

  /** `goCamelCase` of cmd/protogen-tesla: another way to the same name. */
  method GoCamelCase(s: string) returns (r: string)
    ensures r == Camel(s, true)
  {
    if '_' !in s {
      CamelWord(s);
      if s == "" {
        return s;
      }
      return [Upper(s[0])] + s[1..];
    }
    var parts := Split(s, '_');
    var out := "";
    for i := 0 to |parts|
      invariant out == Join(RaiseAll(parts)[..i], "")
    {
      var p := parts[i];
      JoinLast(RaiseAll(parts)[..i], RaiseFirst(p));
      assert RaiseAll(parts)[..i + 1] == RaiseAll(parts)[..i] + [RaiseFirst(p)];
      if p != "" {
        out := out + [Upper(p[0])];
        if |p| > 1 {
          out := out + p[1..];
        }
        assert RaiseFirst(p) == [Upper(p[0])] + p[1..];
      }
    }
    assert RaiseAll(parts)[..|parts|] == RaiseAll(parts);
    CamelParts(s);
    return out;
  }

  // ---------------------------------------------------------------- collisions

  /** A snake-case name: lower-case letters, digits and underscores. */
  predicate IsSnake(s: string) {
    forall c :: c in s ==> IsLower(c) || '0' <= c <= '9' || c == '_'
  }

  /** The name without the underscores that no letter follows. */
  function Core(s: string): string {
    if s == "" then ""
    else if s[0] == '_' && (|s| == 1 || !IsLower(s[1])) then Core(s[1..])
    else [s[0]] + Core(s[1..])
  }

  function Snake(t: string): string {
    if t == "" then ""
    else if IsUpper(t[0]) then "_" + [Lower(t[0])] + Snake(t[1..])
    else [t[0]] + Snake(t[1..])
  }

  lemma {:induction false} SnakeOfCamel(s: string)
    requires IsSnake(s)
    ensures Snake(Camel(s, false)) == Core(s)
    ensures Snake(Camel(s, true)) == Core("_" + s)
    decreases s
  {
    assert ("_" + s)[1..] == s;
    if s != "" {
      assert s[0] in s;
      assert forall c :: c in s[1..] ==> c in s;
      SnakeOfCamel(s[1..]);
      assert s[0] == '_' ==> s == "_" + s[1..];
      if s[0] != '_' {
        CamelHead(s, true);
        CamelHead(s, false);
      }
      if IsLower(s[0]) {
        assert Lower(Upper(s[0])) == s[0];
        assert Core("_" + s) == "_" + Core(s);
        assert Core(s) == [s[0]] + Core(s[1..]);
        assert Snake(Camel(s, true)) == "_" + [s[0]] + Core(s[1..]);
      }
    }
  }

  lemma CamelHead(s: string, up: bool)
    requires s != "" && s[0] != '_'
    ensures var t := Camel(s, up);
      t != "" && t[0] == (if up then Upper(s[0]) else s[0]) && t[1..] == Camel(s[1..], false)
  {
  }

  lemma {:induction false} CamelOfCore(s: string)
    requires IsSnake(s)
    ensures Camel(Core(s), false) == Camel(s, false)
    ensures Camel(Core("_" + s), false) == Camel(s, true)
    decreases s
  {
    assert ("_" + s)[1..] == s;
    if s != "" {
      assert s[0] in s;
      assert forall c :: c in s[1..] ==> c in s;
      CamelOfCore(s[1..]);
      assert s[0] == '_' ==> s == "_" + s[1..];
      if s[0] != '_' {
        assert Core(s)[1..] == Core(s[1..]);
        assert Core("_" + s) == (if IsLower(s[0]) then "_" + Core(s) else Core(s));
        assert ("_" + Core(s))[1..] == Core(s);
      }
    }
  }

  /** Two names that start with a letter become the same alert name exactly when
      they agree once the underscores that no letter follows are dropped. */
  lemma CollideIff(s: string, t: string)
    requires IsSnake(s) && IsSnake(t) && s != "" && t != "" && IsLower(s[0]) && IsLower(t[0])
    ensures Camel(s, true) == Camel(t, true) <==> Core(s) == Core(t)
  {
    SnakeOfCamel(s);
    SnakeOfCamel(t);
    CamelOfCore(s);
    CamelOfCore(t);
    assert ("_" + s)[1..] == s && ("_" + t)[1..] == t;
    assert Core("_" + s) == "_" + Core(s) && Core("_" + t) == "_" + Core(t);
    assert ("_" + Core(s))[1..] == Core(s) && ("_" + Core(t))[1..] == Core(t);
  }

  /** Every underscore is followed by a letter. */
  predicate LetterParts(s: string) {
    forall i :: 0 <= i < |s| && s[i] == '_' ==> i + 1 < |s| && IsLower(s[i + 1])
  }

  lemma {:induction false} CoreWhole(s: string)
    requires LetterParts(s)
    ensures Core(s) == s
    decreases s
  {
    if s != "" {
      CoreWhole(s[1..]);
      assert s == [s[0]] + s[1..];
    }
  }

  /** Names whose parts all start with a letter never collide. */
  lemma CamelInjective(s: string, t: string)
    requires IsSnake(s) && IsSnake(t) && s != "" && t != "" && IsLower(s[0]) && IsLower(t[0])
    requires LetterParts(s) && LetterParts(t)
    ensures Camel(s, true) == Camel(t, true) ==> s == t
  {
    CollideIff(s, t);
    CoreWhole(s);
    CoreWhole(t);
  }
}
