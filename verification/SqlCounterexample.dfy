/**
 A text on which scripts/fix_grafana_unit_conversions.py is not idempotent although
 no call lies inside the arguments of another: an unclosed call whose string holds a
 closed one. Rewriting the closed call closes the outer one.
*/
module SqlCounterexample {
  import opened PyStrings
  import opened Wrappers
  import opened SqlCalls
  import opened SqlRewriting

  const INNER := Call(Speed, Bare, "a, '('")
  const INNER_AFTER := Call(Speed, Bare, "a")
  const OUTER := Call(Temp, Bare, "'convert_speed(a)'")

  const FIRST := "convert_temp('convert_speed(a, '(')')"
  function Second(): string {
    "convert_temp('convert_speed(a)')"
  }

  predicate Never(arg: string) {
    false
  }

  lemma {:induction false} InString(x: string, q: Scan)
    requires q.quoted && !q.escaped && '\'' !in x && '\\' !in x && q.depth > 0
    ensures RunTo(x, q) == Some(q)
    decreases x
  {
    if x != "" {
      assert x[0] in x;
      assert forall c :: c in x[1..] ==> c in x;
      InString(x[1..], Step(q, x[0]));
    }
  }

  lemma InnerScan()
    ensures Closing(RunTo(INNER.args, OPENED)) && Headless(false, INNER.args)
    ensures Target(INNER, Never) == INNER_AFTER
  {
    var s := "a, '('";
    assert s[1..] == ", '('" && s[1..][1..] == " '('" && " '('"[1..] == "'('" && "'('"[1..] == "('" && "('"[1..] == "'";
    assert RunTo("'", Scan(1, true, false)) == Some(OPENED);
    assert RunTo("('", Scan(1, true, false)) == Some(OPENED);
    assert RunTo("'('", OPENED) == Some(OPENED);
    assert RunTo(" '('", OPENED) == Some(OPENED);
    assert RunTo(", '('", OPENED) == Some(OPENED);
    assert CommaAt(", '('", OPENED) == 0;
    assert CommaAt(s, OPENED) == 1;
    assert s[..1] == "a";
    assert Headless(false, "'") && Headless(false, "('") && Headless(false, "'('");
    assert Headless(false, " '('") && Headless(false, ", '('") && Headless(true, ", '('");
  }

  lemma TailOpen()
    ensures CloseAt("'(')')", Scan(1, true, false)) == None
  {
    assert "'(')')"[1..] == "(')')" && "(')')"[1..] == "')')" && "')')"[1..] == ")')";
    assert ")')"[1..] == "')" && "')"[1..] == ")" && ")"[1..] == "";
    assert CloseAt(")", Scan(2, false, false)) == None;
    assert CloseAt("')", Scan(2, true, false)) == None;
    assert CloseAt(")')", Scan(2, true, false)) == None;
    assert CloseAt("')')", Scan(2, false, false)) == None;
    assert CloseAt("(')')", OPENED) == None;
  }

  lemma QuoteOpens()
    ensures RunTo("'", OPENED) == Some(Scan(1, true, false))
  {
    assert "'"[1..] == "";
  }

  /** Seen from outside, the quotes of the inner call are flipped, and its parenthesis
      is never matched. */
  lemma OuterOpen()
    ensures CloseAt("'convert_speed(a, '(')')", OPENED) == None
  {
    hide CloseAt, RunTo;
    var x, tail := "convert_speed(a, ", "'(')')";
    TailOpen();
    QuoteOpens();
    InString(x, Scan(1, true, false));
    CloseRun(x, tail, Scan(1, true, false));
    CloseRun("'", x + tail, OPENED);
    assert "'convert_speed(a, '(')')" == "'" + (x + tail);
  }

  lemma Spelled()
    ensures CallName(Temp, Bare) == "convert_temp" && CallName(Speed, Bare) == "convert_speed"
    ensures Source(INNER) == "convert_speed(a, '(')" && Source(INNER_AFTER) == "convert_speed(a)"
    ensures Source(OUTER) == Second()
  {
  }

  /** Behind a quote there is no name. */
  lemma QuoteNoHead(rest: string)
    ensures HeadAt(false, "'convert_speed(" + rest) == None
  {
    var s := "'convert_speed(" + rest;
    assert s == "'convert_speed" + "(" + rest;
    assert '(' !in "'convert_speed";
    ParenIs("'convert_speed", rest);
    assert s[..14] == "'convert_speed";
    assert "'convert_speed"[8] == '_';
  }

  function End(): string {
    "')"
  }

  function Body(): string {
    ['\''] + (Source(INNER) + End())
  }

  function BodyAfter(): string {
    ['\''] + (Source(INNER_AFTER) + End())
  }

  lemma EndRun()
    ensures Rewrite(false, End(), Never) == End() && Flat(false, End())
  {
    var s := End();
    assert s[1..] == ")" && ")"[1..] == "";
    PlainStep(false, s, Never);
    PlainStep(false, ")", Never);
  }

  lemma BodyPlain()
    ensures CallAt(false, Body()) == None
  {
    hide HeadAt, Source;
    Spelled();
    var body := Body();
    assert body == "'convert_speed(" + "a, '(')')";
    QuoteNoHead("a, '(')')");
    NoHeadNoCall(false, body);
  }

  lemma BodyRun()
    ensures Flat(false, Body()) && Rewrite(false, Body(), Never) == BodyAfter()
  {
    hide Rewrite, Flat, Closing, RunTo, Headless, CallAt, Source, Target, End;
    var body, rest := Body(), Source(INNER) + End();
    BodyPlain();
    PlainStep(false, body, Never);
    assert body[1..] == rest;
    InnerScan();
    CallThere(INNER, End());
    CallStep(false, rest, Never);
    assert rest[|Source(INNER)|..] == End();
    EndRun();
  }

  lemma Parts()
    ensures FIRST == CallName(Temp, Bare) + "(" + Body()
    ensures Second() == CallName(Temp, Bare) + "(" + BodyAfter()
    ensures Body() == "'convert_speed(a, '(')')"
  {
    hide CallName, Source;
    Spelled();
  }

  lemma OuterUnclosed()
    ensures CallAt(false, FIRST) == None
  {
    hide CallName, HeadAt, CloseAt, Body;
    Parts();
    HeadThere(Temp, Bare, Body());
    OuterOpen();
  }

  /** The first text: the outer call never closes, so only the inner one is rewritten. */
  lemma FirstRun()
    ensures Flat(false, FIRST) && Transformed(FIRST, Never) == Second()
  {
    hide Rewrite, Flat, CallName, CallAt, Transformed, Pieces, Body, BodyAfter;
    Parts();
    OuterUnclosed();
    NameWord(Temp, Bare);
    var name := CallName(Temp, Bare);
    assert FIRST[|name| + 1..] == Body();
    NameWalk(false, FIRST, name, Never);
    BodyRun();
    TransformIsRewrite(FIRST, Never);
  }

  lemma {:induction false} NoComma(x: string, q: Scan)
    requires ',' !in x
    ensures CommaAt(x, q) == |x|
    decreases x
  {
    if x != "" {
      assert x[0] in x;
      assert forall c :: c in x[1..] ==> c in x;
      NoComma(x[1..], Step(q, x[0]));
    }
  }

  lemma QuotedScan(x: string)
    requires '\'' !in x && '\\' !in x && ',' !in x
    ensures var a := ['\''] + (x + ['\'']);
      Closing(RunTo(a, OPENED)) && CommaAt(a, OPENED) == |a| && RStrip(a) == a
  {
    hide RunTo, CommaAt;
    var q := Scan(1, true, false);
    var a := ['\''] + (x + ['\'']);
    OneStep('\'', OPENED);
    RunConcat(['\''], x + ['\''], OPENED);
    InString(x, q);
    RunConcat(x, ['\''], q);
    OneStep('\'', q);
    NoComma(a, OPENED);
    assert a[|a| - 1] == '\'';
  }

  lemma TargetSelf(c: Call)
    requires CommaAt(c.args, OPENED) == |c.args| && RStrip(c.args) == c.args
    ensures Target(c, Never) == c
  {
    hide CommaAt, RStrip;
    assert c.args[..|c.args|] == c.args;
  }

  lemma OuterScan()
    ensures Closing(RunTo(OUTER.args, OPENED)) && Target(OUTER, Never) == OUTER
  {
    hide RunTo, CommaAt, RStrip, Closing, Target;
    QuotedScan("convert_speed(a)");
    OuterArgs();
    TargetSelf(OUTER);
  }

  lemma OuterArgs()
    ensures OUTER.args == ['\''] + ("convert_speed(a)" + ['\''])
  {
  }

  lemma InnerAfterScan()
    ensures Closing(RunTo(INNER_AFTER.args, OPENED)) && Target(INNER_AFTER, Never) == INNER_AFTER
  {
    assert "a"[1..] == "";
    NoComma("a", OPENED);
    assert "a"[..1] == "a";
  }

  lemma HeadHasParen(w: bool, t: string)
    requires HeadAt(w, t).Some?
    ensures '(' in t
  {
    hide Lookup;
    assert t[ParenAt(t)] == '(';
  }

  lemma {:induction false} NoParenNoFinds(s: string, i: nat)
    requires i <= |s| && '(' !in s[i..]
    ensures Finds(s, i) == []
    decreases |s| - i
  {
    hide HeadAt;
    if i < |s| {
      if HeadAt(WordBefore(s, i), s[i..]).Some? {
        HeadHasParen(WordBefore(s, i), s[i..]);
      }
      assert s[i + 1..] == s[i..][1..];
      assert forall c :: c in s[i..][1..] ==> c in s[i..];
      NoParenNoFinds(s, i + 1);
    }
  }

  function Rest(): string {
    "a)')"
  }

  lemma SecondTail()
    ensures |Second()| == 32 && Second()[14..] == "convert_speed(" + Rest() && Second()[28..] == Rest()
    ensures '(' !in Rest()
  {
  }

  lemma SecondHead()
    ensures Second()[0..] == Second() && Second() == "convert_temp(" + Second()[13..]
    ensures Second()[12] == '(' && Second()[13] == '\''
  {
  }

  lemma Openings(rest: string)
    ensures "convert_temp(" + rest == CallName(Temp, Bare) + "(" + rest && |CallName(Temp, Bare)| == 12
    ensures "convert_speed(" + rest == CallName(Speed, Bare) + "(" + rest && |CallName(Speed, Bare)| == 13
    ensures ['\''] + ("convert_speed(" + rest) == "'convert_speed(" + rest
  {
    assert CallName(Temp, Bare) + "(" == "convert_temp(";
    assert CallName(Speed, Bare) + "(" == "convert_speed(";
    assert ['\''] + "convert_speed(" == "'convert_speed(";
  }

  /** Where the characters of the second text stand. */
  lemma SecondShape()
    ensures |Second()| == 32 && Second()[0..] == Second()
    ensures Second() == CallName(Temp, Bare) + "(" + Second()[13..] && |CallName(Temp, Bare)| == 12
    ensures Second()[13..] == "'convert_speed(" + Rest() && Second()[12] == '('
    ensures Second()[14..] == CallName(Speed, Bare) + "(" + Rest() && Second()[13] == '\''
    ensures |CallName(Speed, Bare)| == 13
    ensures Second()[28..] == Rest() && '(' !in Rest()
  {
    hide CallName, Second, Rest;
    SecondTail();
    SecondHead();
    Openings(Second()[13..]);
    Openings(Rest());
    assert Second()[13..] == ['\''] + Second()[14..];
  }

  lemma SecondMatches()
    ensures Finds(Second(), 0) == [0, 14] && |Second()| == 32
    ensures HeadAt(WordBefore(Second(), 0), Second()[0..]).Some?
    ensures HeadAt(WordBefore(Second(), 14), Second()[14..]).Some?
  {
    hide CallName, HeadAt, Finds, Second, Rest, ParenAt;
    var s := Second();
    SecondShape();
    HeadThere(Temp, Bare, s[13..]);
    FindsStep(s, 0);
    QuoteNoHead(Rest());
    FindsStep(s, 13);
    HeadThere(Speed, Bare, Rest());
    FindsStep(s, 14);
    NoParenNoFinds(s, 28);
  }

  lemma OuterThere()
    ensures CallIn(Second(), 0) == Some(OUTER)
  {
    hide CallAt, Closing, CallName, Source, Second;
    Spelled();
    OuterScan();
    CallThere(OUTER, "");
    assert Source(OUTER) + "" == Second() == Second()[0..];
  }

  lemma InnerThere()
    ensures |Second()| == 32 && CallIn(Second(), 14) == Some(INNER_AFTER) && Second()[30..] == End()
    ensures |Source(INNER_AFTER)| == 16
  {
    hide CallAt, Closing, CallName, Source;
    SecondShape();
    Spelled();
    InnerAfterScan();
    CallThere(INNER_AFTER, End());
    assert Second()[14..] == Source(INNER_AFTER) + End();
  }

  lemma SecondWritten()
    ensures FoundIn(Second(), [0, 14]) && Written(Second(), [0, 14], Never) == (Second() + Source(INNER_AFTER), 30)
  {
    hide CallIn, Source, Target, HeadAt, Written, FoundIn, Second, Finds, Slice;
    var s := Second();
    FirstWritten();
    SecondMatches();
    InnerThere();
    InnerAfterScan();
    assert [0] + [14] == [0, 14];
    OneMoreFound(s, [0], 14);
    MoreFound(s, [0], 14, Never);
    CrossedSlices(s);
  }

  lemma FirstWritten()
    ensures FoundIn(Second(), [0]) && Written(Second(), [0], Never) == (Second(), 32)
  {
    hide CallIn, Source, Target, HeadAt, Written, FoundIn, Second, Finds, Slice;
    var s := Second();
    SecondMatches();
    Spelled();
    OuterThere();
    OuterScan();
    NoneFound(s);
    NothingYet(s, Never);
    assert [] + [0] == [0];
    OneMoreFound(s, [], 0);
    MoreFound(s, [], 0, Never);
    CrossedSlices(s);
  }

  lemma CrossedSlices(s: string)
    requires |s| == 32
    ensures Slice(s, 0, 0) == "" && Slice(s, 32, 14) == "" && forall x: string :: "" + "" + x == x && x + "" == x
  {
  }

  /** The second run repeats the text of the inner call: the first result is no fixed
      point, though in the first text no call lies inside another's arguments. */
  lemma NotIdempotent()
    ensures Flat(false, FIRST) && IgnoresBlanks(Never)
    ensures Transformed(FIRST, Never) == Second()
    ensures Transformed(Second(), Never) == Second() + Source(INNER_AFTER) + "')"
    ensures Transformed(Second(), Never) != Second()
    ensures !Firm(false, FIRST, Never)
  {
    hide Firm, Flat, Finds, Written, Source, Target, HeadAt, Second;
    FirstRun();
    SecondMatches();
    SecondWritten();
    InnerThere();
    if Firm(false, FIRST, Never) {
      FirmIsFinal(FIRST, Never);
    }
  }
}
