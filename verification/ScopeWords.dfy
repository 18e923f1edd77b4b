/**
 The words scripts/migrate_grafana_signal_log.py looks for around parentheses, letter by
 letter: SELECT behind an opening one, and the alias behind a closing one.
*/
module ScopeWords {
  import opened Wrappers
  import opened PyStrings
  import opened SelectScope

  // ---------------------------------------------------------------- letters in either case

  /** A capital letter, or the same letter small. */
  predicate Reads(c: char, capital: char) {
    c == capital || ('a' <= c <= 'z' && c as int == capital as int + 32)
  }

  /** The word, in capital, small or mixed letters. */
  predicate Spells(t: string, word: string) {
    |t| == |word| && forall k :: 0 <= k < |t| ==> Reads(t[k], word[k])
  }

  predicate Capitals(word: string) {
    forall k :: 0 <= k < |word| ==> 'A' <= word[k] <= 'Z'
  }

  lemma UpperReads(c: char, capital: char)
    requires 'A' <= capital <= 'Z'
    ensures Upper(c) == capital <==> Reads(c, capital)
  {
  }

  lemma UpperSpells(t: string, word: string)
    requires Capitals(word)
    ensures UpperAll(t) == word <==> Spells(t, word)
  {
    hide Upper, Reads;
    forall k | 0 <= k < |t| && k < |word|
      ensures Upper(t[k]) == word[k] <==> Reads(t[k], word[k])
    {
      UpperReads(t[k], word[k]);
    }
    if UpperAll(t) == word {
      assert forall k :: 0 <= k < |t| ==> UpperAll(t)[k] == word[k];
    }
  }

  // ---------------------------------------------------------------- blanks and words

  /** White space up to Latin-1. */
  predicate IsGap(c: char) {
    || c == ' ' || c == '\t' || c == '\n' || c == '\r' || c == '\U{0b}' || c == '\U{0c}'
    || c == '\U{1c}' || c == '\U{1d}' || c == '\U{1e}' || c == '\U{1f}' || c == '\U{85}' || c == '\U{a0}'
  }

  predicate Gap(t: string) {
    forall k :: 0 <= k < |t| ==> IsGap(t[k])
  }

  /** A letter, a digit or an underscore. */
  predicate IsSign(c: char) {
    'a' <= c <= 'z' || 'A' <= c <= 'Z' || '0' <= c <= '9' || c == '_'
  }

  predicate Signs(t: string) {
    forall k :: 0 <= k < |t| ==> IsSign(t[k])
  }

  lemma SameClasses(c: char)
    ensures (IsSpace(c) <==> IsGap(c)) && (IsWord(c) <==> IsSign(c))
  {
  }

  lemma {:induction false} SkipGap(s: string, i: nat, pad: string, rest: string)
    requires i <= |s| && s[i..] == pad + rest && Gap(pad) && (rest != "" ==> !IsGap(rest[0]))
    ensures SkipSpace(s, i) == i + |pad| <= |s| && s[i + |pad|..] == rest
    decreases pad
  {
    hide IsGap, IsSpace;
    if pad == "" {
      assert s[i..] == rest;
      if rest != "" {
        assert s[i] == rest[0];
        SameClasses(rest[0]);
      }
    } else {
      assert s[i] == s[i..][0] == pad[0];
      SameClasses(pad[0]);
      assert s[i + 1..] == s[i..][1..] == pad[1..] + rest;
      assert forall k :: 0 <= k < |pad[1..]| ==> pad[1..][k] == pad[k + 1];
      SkipGap(s, i + 1, pad[1..], rest);
    }
  }

  lemma {:induction false} SkipSigns(s: string, i: nat, word: string, rest: string)
    requires i <= |s| && s[i..] == word + rest && Signs(word) && (rest != "" ==> !IsSign(rest[0]))
    ensures SkipWord(s, i) == i + |word| <= |s| && s[i..i + |word|] == word
    decreases word
  {
    hide IsSign, IsWord;
    if word == "" {
      assert s[i..] == rest;
      if rest != "" {
        assert s[i] == rest[0];
        SameClasses(rest[0]);
      }
    } else {
      assert s[i] == s[i..][0] == word[0];
      SameClasses(word[0]);
      assert s[i + 1..] == s[i..][1..] == word[1..] + rest;
      assert forall k :: 0 <= k < |word[1..]| ==> word[1..][k] == word[k + 1];
      SkipSigns(s, i + 1, word[1..], rest);
      assert s[i..i + |word|] == [s[i]] + s[i + 1..i + 1 + |word[1..]|];
    }
  }

  // ---------------------------------------------------------------- SELECT

  /** Behind the parenthesis at `i` stand blanks, then the letters of SELECT, then `rest`. */
  predicate SelectBehind(sql: string, i: nat, pad: string, letters: string, rest: string) {
    i < |sql| && sql[i + 1..] == pad + (letters + rest) && Gap(pad) && Spells(letters, "SELECT")
  }

  lemma SelectShape()
    ensures |"SELECT"| == 6 && Capitals("SELECT")
  {
  }

  lemma LettersNoGap(letters: string)
    requires Spells(letters, "SELECT")
    ensures letters != "" && !IsGap(letters[0])
  {
    assert "SELECT"[0] == 'S';
  }

  lemma {:induction false} SkippedGap(s: string, i: nat)
    requires i <= |s|
    ensures Gap(s[i..SkipSpace(s, i)]) && (SkipSpace(s, i) < |s| ==> !IsGap(s[SkipSpace(s, i)]))
    decreases |s| - i
  {
    hide IsGap, IsSpace;
    if i < |s| {
      SameClasses(s[i]);
      if IsSpace(s[i]) {
        SkippedGap(s, i + 1);
        assert s[i..SkipSpace(s, i)] == [s[i]] + s[i + 1..SkipSpace(s, i + 1)];
      }
    }
  }

  /** The scan takes a parenthesis for a subquery exactly when blanks and the letters of
      SELECT, in either case, stand behind it. */
  lemma SelectAtIff(sql: string, i: nat)
    requires i < |sql|
    ensures SelectAt(sql, i) <==> exists pad, letters, rest :: SelectBehind(sql, i, pad, letters, rest)
  {
    hide Spells, UpperAll, IsGap;
    SelectShape();
    var j := SkipSpace(sql, i + 1);
    forall pad, letters, rest | SelectBehind(sql, i, pad, letters, rest)
      ensures SelectAt(sql, i)
    {
      SelectThere(sql, i, pad, letters, rest);
    }
    if SelectAt(sql, i) {
      SkippedGap(sql, i + 1);
      var letters := Taken(sql, j, 6);
      UpperSpells(letters, "SELECT");
      var pad, rest := sql[i + 1..j], sql[j + |letters|..];
      assert sql[i + 1..] == pad + (letters + rest);
      assert SelectBehind(sql, i, pad, letters, rest);
    }
  }

  lemma SelectThere(sql: string, i: nat, pad: string, letters: string, rest: string)
    requires SelectBehind(sql, i, pad, letters, rest)
    ensures SelectAt(sql, i) && SkipSpace(sql, i + 1) == i + 1 + |pad|
    ensures sql[i + 1 + |pad| + 6..] == rest && i + 1 + |pad| + 6 <= |sql|
  {
    hide Spells, UpperAll, IsGap;
    SelectShape();
    LettersNoGap(letters);
    SixLetters(letters);
    SkipGap(sql, i + 1, pad, letters + rest);
    var j := i + 1 + |pad|;
    assert sql[j..] == letters + rest;
    Pieces(sql, j, letters, rest);
    UpperSpells(letters, "SELECT");
  }

  lemma Pieces(s: string, i: nat, a: string, b: string)
    requires i <= |s| && s[i..] == a + b
    ensures i + |a| <= |s| && s[i..i + |a|] == a && s[i + |a|..] == b
  {
    var t := s[i..];
    assert t[..|a|] == a && t[|a|..] == b;
    assert |s| == i + |a| + |b|;
  }

  lemma SixLetters(letters: string)
    requires Spells(letters, "SELECT")
    ensures |letters| == 6
  {
  }

  /** It is the word when no letter, digit or underscore goes on with it. */
  lemma SelectWordIff(sql: string, i: nat, pad: string, letters: string, rest: string)
    requires SelectBehind(sql, i, pad, letters, rest)
    ensures SelectWord(sql, i) <==> rest == "" || !IsSign(rest[0])
  {
    hide SelectAt, IsWord, IsSign, Spells, Gap;
    SelectThere(sql, i, pad, letters, rest);
    var n := i + 1 + |pad| + 6;
    if rest != "" {
      assert sql[n] == sql[n..][0] == rest[0];
      SameClasses(rest[0]);
    }
  }

  // ---------------------------------------------------------------- aliases

  /** A word that is no alias. */
  predicate Reserved(a: string) {
    || Spells(a, "AS") || Spells(a, "ON") || Spells(a, "WHERE") || Spells(a, "GROUP") || Spells(a, "ORDER")
    || Spells(a, "JOIN") || Spells(a, "LEFT") || Spells(a, "RIGHT") || Spells(a, "FULL") || Spells(a, "INNER")
    || Spells(a, "CROSS") || Spells(a, "UNION") || Spells(a, "SELECT") || Spells(a, "FROM") || Spells(a, "AND")
    || Spells(a, "OR") || Spells(a, "NOT") || Spells(a, "WITH") || Spells(a, "HAVING") || Spells(a, "LIMIT")
    || Spells(a, "OFFSET") || Spells(a, "WINDOW") || Spells(a, "USING") || Spells(a, "RETURNING")
  }

  lemma FirstWords()
    ensures Capitals("AS") && Capitals("ON") && Capitals("WHERE") && Capitals("GROUP") && Capitals("ORDER")
    ensures Capitals("JOIN") && Capitals("LEFT") && Capitals("RIGHT")
  {
  }

  lemma MiddleWords()
    ensures Capitals("FULL") && Capitals("INNER") && Capitals("CROSS") && Capitals("UNION")
    ensures Capitals("SELECT") && Capitals("FROM") && Capitals("AND") && Capitals("OR")
  {
  }

  lemma LastWords()
    ensures Capitals("NOT") && Capitals("WITH") && Capitals("HAVING") && Capitals("LIMIT")
    ensures Capitals("OFFSET") && Capitals("WINDOW") && Capitals("USING") && Capitals("RETURNING")
  {
  }

  lemma ReservedIff(a: string)
    ensures UpperAll(a) in KEYWORDS <==> Reserved(a)
  {
    hide Capitals, Spells, UpperAll;
    FirstWords();
    MiddleWords();
    LastWords();
    forall w: string | Capitals(w)
      ensures UpperAll(a) == w <==> Spells(a, w)
    {
      UpperSpells(a, w);
    }
  }

  /** The alias made of these signs, if it is one. */
  function Alias(a: string): Option<string> {
    if a == "" || Reserved(a) then None else Some(a)
  }

  predicate EndsSigns(rest: string) {
    rest == "" || !IsSign(rest[0])
  }

  /** The name that stands at `start`, if it is an alias. */
  function NameFrom(sql: string, start: nat): Option<string>
    requires start <= |sql|
  {
    var end := SkipWord(sql, start);
    if end > start && UpperAll(sql[start..end]) !in KEYWORDS then Some(sql[start..end]) else None
  }

  lemma AfterGap(sql: string, i: nat)
    requires i < |sql|
    ensures var j := SkipSpace(sql, i + 1);
      AliasAfter(sql, i) ==
      if UpperAll(Taken(sql, j, 2)) == "AS" && j + 2 < |sql| && IsSpace(sql[j + 2])
      then NameFrom(sql, SkipSpace(sql, j + 2)) else NameFrom(sql, j)
  {
    hide SkipSpace, SkipWord, UpperAll, KEYWORDS, IsSpace, Taken;
  }

  lemma AliasHere(sql: string, start: nat, a: string, rest: string)
    requires start <= |sql| && sql[start..] == a + rest && Signs(a) && EndsSigns(rest)
    ensures NameFrom(sql, start) == Alias(a)
  {
    hide Reserved, UpperAll, Signs;
    SkipSigns(sql, start, a, rest);
    ReservedIff(a);
  }

  lemma TwoLetters(letters: string)
    requires Spells(letters, "AS")
    ensures |letters| == 2 && Capitals("AS") && !IsGap(letters[0])
  {
    assert "AS"[0] == 'A';
  }

  /** Blanks, the letters of AS, at least one blank, and a name: the name is the alias. */
  lemma AliasNamed(sql: string, i: nat, pad: string, letters: string, gap: string, a: string, rest: string)
    requires i < |sql| && sql[i + 1..] == pad + (letters + (gap + (a + rest)))
    requires Gap(pad) && Spells(letters, "AS") && gap != "" && Gap(gap)
    requires Signs(a) && EndsSigns(rest) && (a == "" ==> rest == "" || !IsGap(rest[0]))
    ensures AliasAfter(sql, i) == Alias(a)
  {
    hide Spells, UpperAll, IsGap, IsSpace, Reserved, IsSign, KEYWORDS, Gap, Signs, AliasAfter, NameFrom, Taken;
    AfterGap(sql, i);
    var more := gap + (a + rest);
    AsThere(sql, i, pad, letters, more);
    var j := i + 1 + |pad|;
    assert sql[j + 2] == sql[j + 2..][0] == more[0] == gap[0];
    GapFirst(gap);
    NoGapFirst(a, rest);
    SkipGap(sql, j + 2, gap, a + rest);
    AliasHere(sql, j + 2 + |gap|, a, rest);
  }

  lemma GapFirst(gap: string)
    requires Gap(gap) && gap != ""
    ensures IsSpace(gap[0])
  {
    SameClasses(gap[0]);
  }

  lemma AsThere(sql: string, i: nat, pad: string, letters: string, more: string)
    requires i < |sql| && sql[i + 1..] == pad + (letters + more) && Gap(pad) && Spells(letters, "AS") && more != ""
    ensures var j := i + 1 + |pad|;
      && SkipSpace(sql, i + 1) == j && j + 2 < |sql| && sql[j + 2..] == more
      && UpperAll(Taken(sql, j, 2)) == "AS"
  {
    hide Spells, UpperAll, IsGap;
    TwoLetters(letters);
    SkipGap(sql, i + 1, pad, letters + more);
    var j := i + 1 + |pad|;
    assert sql[j..] == letters + more;
    Pieces(sql, j, letters, more);
    UpperSpells(letters, "AS");
  }

  lemma NoGapFirst(a: string, rest: string)
    requires Signs(a) && (a == "" ==> rest == "" || !IsGap(rest[0]))
    ensures a + rest != "" ==> !IsGap((a + rest)[0])
  {
    if a != "" {
      assert (a + rest)[0] == a[0];
      SignNoGap(a[0]);
    }
  }

  lemma SignNoGap(c: char)
    requires IsSign(c)
    ensures !IsGap(c)
  {
  }

  /** Blanks and a name that is not AS with a blank behind it: the name is the alias. */
  lemma AliasBare(sql: string, i: nat, pad: string, a: string, rest: string)
    requires i < |sql| && sql[i + 1..] == pad + (a + rest) && Gap(pad) && Signs(a) && EndsSigns(rest)
    requires a == "" ==> rest == "" || !IsGap(rest[0])
    requires !(Spells(a, "AS") && rest != "" && IsGap(rest[0]))
    ensures AliasAfter(sql, i) == Alias(a)
  {
    hide Spells, UpperAll, IsGap, IsSpace, Reserved, IsSign, KEYWORDS, AliasAfter, NameFrom;
    AfterGap(sql, i);
    NoGapFirst(a, rest);
    SkipGap(sql, i + 1, pad, a + rest);
    var j := i + 1 + |pad|;
    AliasHere(sql, j, a, rest);
    if UpperAll(Taken(sql, j, 2)) == "AS" && j + 2 < |sql| && IsSpace(sql[j + 2]) {
      SameClasses(sql[j + 2]);
      NotNamed(sql, j, a, rest);
    }
  }

  /** AS with a blank behind it is the whole name. */
  lemma NotNamed(sql: string, j: nat, a: string, rest: string)
    requires j + 2 < |sql| && sql[j..] == a + rest && Signs(a) && EndsSigns(rest)
    requires UpperAll(sql[j..j + 2]) == "AS" && IsGap(sql[j + 2])
    ensures Spells(a, "AS") && rest != "" && IsGap(rest[0])
  {
    hide Spells, UpperAll, IsGap, IsSign;
    var t := sql[j..];
    assert t[..2] == sql[j..j + 2] && t[2] == sql[j + 2];
    TwoLetters2();
    UpperSpells(t[..2], "AS");
    LettersSign(t[..2]);
    assert t[0] == t[..2][0] && t[1] == t[..2][1];
    if |a| > 2 {
      assert t[2] == a[2];
      SignNoGap(a[2]);
    }
    assert a == t[..2];
    assert t[2] == rest[0];
  }

  lemma TwoLetters2()
    ensures Capitals("AS")
  {
  }

  lemma LettersSign(letters: string)
    requires Spells(letters, "AS")
    ensures |letters| == 2 && IsSign(letters[0]) && IsSign(letters[1])
  {
    assert "AS"[0] == 'A' && "AS"[1] == 'S';
  }
}
