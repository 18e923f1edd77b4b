/**
 What scripts/fix_grafana_unit_conversions.py makes of a text whose calls do not
 nest: text outside calls stays, every call keeps one argument, and a second run
 changes nothing where no unclosed call is closed by the first.
*/
module SqlRewriting {
  import opened PyStrings
  import opened Wrappers
  import opened SqlCalls

  // ---------------------------------------------------------------- one pass

  /** Left to right, one call at a time. */
  function Rewrite(w: bool, s: string, campB: string -> bool): string
    decreases |s|
  {
    if s == "" then ""
    else match CallAt(w, s)
      case None => [s[0]] + Rewrite(IsWord(s[0]), s[1..], campB)
      case Some(c) =>
        SourcePrefix(w, s);
        Source(Target(c, campB)) + Rewrite(false, s[|Source(c)|..], campB)
  }

  /** The text as a row of characters outside calls and of calls. */
  datatype Piece = Plain(c: char) | Whole(call: Call)

  function Pieces(w: bool, s: string): seq<Piece>
    decreases |s|
  {
    if s == "" then []
    else match CallAt(w, s)
      case None => [Plain(s[0])] + Pieces(IsWord(s[0]), s[1..])
      case Some(c) =>
        SourcePrefix(w, s);
        [Whole(c)] + Pieces(false, s[|Source(c)|..])
  }

  function TextOf(ps: seq<Piece>): string {
    if ps == [] then ""
    else (match ps[0] case Plain(c) => [c] case Whole(c) => Source(c)) + TextOf(ps[1..])
  }

  function Retarget(ps: seq<Piece>, campB: string -> bool): (r: seq<Piece>)
    ensures |r| == |ps|
  {
    seq(|ps|, i requires 0 <= i < |ps| =>
      match ps[i] case Plain(c) => Plain(c) case Whole(c) => Whole(Target(c, campB)))
  }

  /** No match of the call pattern starts in `t`. */
  predicate Headless(w: bool, t: string)
    decreases t
  {
    t == "" || (HeadAt(w, t) == None && Headless(IsWord(t[0]), t[1..]))
  }

  /** No match starts inside the arguments of a closed call. */
  predicate Flat(w: bool, s: string)
    decreases |s|
  {
    s == "" ||
    match CallAt(w, s)
    case None => Flat(IsWord(s[0]), s[1..])
    case Some(c) =>
      SourcePrefix(w, s);
      Headless(false, c.args) && Flat(false, s[|Source(c)|..])
  }

  // ---------------------------------------------------------------- scans

  /** The scan after `t`, unless the call closes in it. */
  function RunTo(t: string, q: Scan): Option<Scan> {
    if t == "" then Some(q)
    else
      var next := Step(q, t[0]);
      if next.depth == 0 && q.depth > 0 then None else RunTo(t[1..], next)
  }

  /** The scan of an unclosed call, standing at `q` before `t`, goes on to the end
      without closing when it finds every later call as it will be rewritten. */
  predicate Stays(q: Scan, w: bool, t: string, campB: string -> bool)
    decreases |t|
  {
    t == "" ||
    match CallAt(w, t)
    case None =>
      var next := Step(q, t[0]);
      (next.depth > 0 || q.depth == 0) && Stays(next, IsWord(t[0]), t[1..], campB)
    case Some(c) =>
      SourcePrefix(w, t);
      match RunTo(Source(Target(c, campB)), q)
      case None => false
      case Some(next) => Stays(next, false, t[|Source(c)|..], campB)
  }

  /** No unclosed call is closed by the rewriting of the calls behind it. */
  predicate Firm(w: bool, s: string, campB: string -> bool)
    decreases |s|
  {
    s == "" ||
    match CallAt(w, s)
    case None =>
      (HeadAt(w, s).Some? ==> Stays(OPENED, false, s[ParenAt(s) + 1..], campB)) && Firm(IsWord(s[0]), s[1..], campB)
    case Some(c) =>
      SourcePrefix(w, s);
      Firm(false, s[|Source(c)|..], campB)
  }

  lemma {:induction false} CloseRun(a: string, b: string, q: Scan)
    requires RunTo(a, q).Some?
    ensures CloseAt(a + b, q) ==
      match CloseAt(b, RunTo(a, q).value) case None => None case Some(k) => Some(k + |a|)
    decreases a
  {
    if a == "" {
      assert a + b == b;
    } else {
      assert (a + b)[1..] == a[1..] + b;
      CloseRun(a[1..], b, Step(q, a[0]));
    }
  }

  /** Open by one parenthesis, outside strings. */
  predicate Closing(q: Option<Scan>) {
    q.Some? && q.value.depth == 1 && !q.value.quoted
  }

  lemma {:induction false} ClosedArgs(s: string, q: Scan)
    requires q.depth > 0 && CloseAt(s, q).Some?
    ensures Closing(RunTo(s[..CloseAt(s, q).value], q))
    decreases s
  {
    var k := CloseAt(s, q).value;
    if k > 0 {
      ClosedArgs(s[1..], Step(q, s[0]));
      assert s[..k][1..] == s[1..][..k - 1];
    }
  }

  lemma ArgsClose(a: string, b: string, q: Scan)
    requires Closing(RunTo(a, q))
    ensures CloseAt(a + ")" + b, q) == Some(|a|)
  {
    CloseRun(a, ")" + b, q);
    assert a + ")" + b == a + (")" + b);
    assert Step(RunTo(a, q).value, ')').depth == 0;
  }

  lemma {:induction false} RunPrefix(a: string, n: nat, q: Scan)
    requires RunTo(a, q).Some? && n <= |a|
    ensures RunTo(a[..n], q).Some?
    ensures CommaAt(a, q) >= n ==> CommaAt(a[..n], q) == n
    decreases n
  {
    if n > 0 {
      assert a[..n][1..] == a[1..][..n - 1];
      RunPrefix(a[1..], n - 1, Step(q, a[0]));
    }
  }

  lemma {:induction false} CommaRun(a: string, q: Scan)
    requires RunTo(a, q).Some?
    ensures var n := CommaAt(a, q); n < |a| ==> Closing(RunTo(a[..n], q))
    decreases a
  {
    var n := CommaAt(a, q);
    if 0 < n < |a| {
      assert a[..n][1..] == a[1..][..n - 1];
      CommaRun(a[1..], Step(q, a[0]));
    }
  }

  lemma {:induction false} RunLast(a: string, c: char, q: Scan)
    requires RunTo(a + [c], q).Some?
    ensures RunTo(a, q).Some? && RunTo(a + [c], q) == Some(Step(RunTo(a, q).value, c))
    decreases a
  {
    if a != "" {
      assert (a + [c])[1..] == a[1..] + [c];
      RunLast(a[1..], c, Step(q, a[0]));
    }
  }

  /** Trailing blanks do not matter to the scan. */
  lemma {:induction false} StripRun(a: string, q: Scan)
    requires Closing(RunTo(a, q))
    ensures Closing(RunTo(RStrip(a), q))
    decreases |a|
  {
    if a != "" && IsSpace(a[|a| - 1]) {
      var b := a[..|a| - 1];
      assert a == b + [a[|a| - 1]];
      RunLast(b, a[|a| - 1], q);
      StripRun(b, q);
    }
  }

  // ---------------------------------------------------------------- heads

  lemma {:induction false} ParenIs(a: string, b: string)
    requires '(' !in a
    ensures ParenAt(a + "(" + b) == |a|
    decreases a
  {
    if a != "" {
      assert (a + "(" + b)[1..] == a[1..] + "(" + b;
      ParenIs(a[1..], b);
    }
  }

  lemma FuncWord(f: Func)
    ensures AllWord(FuncText(f)) && '(' !in FuncText(f)
  {
    match f
    case Distance =>
    case Speed =>
    case Pressure =>
    case Temp =>
    case Efficiency =>
  }

  lemma SuffixWord(x: Suffix)
    ensures AllWord(SuffixText(x)) && '(' !in SuffixText(x)
  {
    match x
    case Bare =>
    case Pa =>
    case M =>
    case Mps =>
  }

  lemma NameWord(f: Func, x: Suffix)
    ensures AllWord(CallName(f, x)) && '(' !in CallName(f, x) && CallName(f, x) != ""
  {
    hide FuncText, SuffixText;
    FuncWord(f);
    SuffixWord(x);
    assert AllWord("convert_");
  }

  lemma LookupBack(f: Func, x: Suffix)
    ensures Lookup(CallName(f, x)) == Some((f, x))
  {
    var name := CallName(f, x);
    assert name[8] == FuncText(f)[0];
    assert FuncAt(name[8]) == Some(f);
    assert forall y :: name == CallName(f, y) ==> |SuffixText(x)| == |SuffixText(y)|;
  }

  lemma HeadThere(f: Func, x: Suffix, rest: string)
    ensures var s := CallName(f, x) + "(" + rest;
      && HeadAt(false, s) == Some((f, x)) && ParenAt(s) == |CallName(f, x)|
      && s[ParenAt(s) + 1..] == rest
  {
    hide CallName, Lookup;
    NameWord(f, x);
    LookupBack(f, x);
    ParenIs(CallName(f, x), rest);
    var s := CallName(f, x) + "(" + rest;
    assert s[..ParenAt(s)] == CallName(f, x);
  }

  lemma HeadIs(w: bool, s: string)
    requires HeadAt(w, s).Some?
    ensures var (f, x) := HeadAt(w, s).value;
      !w && ParenAt(s) < |s| && s == CallName(f, x) + "(" + s[ParenAt(s) + 1..] && ParenAt(s) == |CallName(f, x)|
  {
    hide Lookup, CallName;
    var n := ParenAt(s);
    LookupName(s[..n]);
    AroundParen(s, n);
  }

  lemma AroundParen(s: string, n: nat)
    requires n < |s| && s[n] == '('
    ensures s == s[..n] + "(" + s[n + 1..]
  {
  }

  lemma HeadLonger(w: bool, p: string, s: string)
    requires p <= s && HeadAt(w, p).Some?
    ensures HeadAt(w, s).Some?
  {
    hide CallName;
    HeadIs(w, p);
    var (f, x) := HeadAt(w, p).value;
    var n := ParenAt(p);
    assert s == CallName(f, x) + "(" + s[n + 1..];
    HeadThere(f, x, s[n + 1..]);
  }

  lemma {:induction false} HeadlessPrefix(w: bool, t: string, n: nat)
    requires Headless(w, t) && n <= |t|
    ensures Headless(w, t[..n])
    decreases n
  {
    hide HeadAt;
    if n > 0 {
      if HeadAt(w, t[..n]).Some? {
        HeadLonger(w, t[..n], t);
      }
      assert t[..n][1..] == t[1..][..n - 1];
      HeadlessPrefix(IsWord(t[0]), t[1..], n - 1);
    }
  }

  /** A well-formed call is recognized wherever it stands behind a non-word. */
  lemma CallThere(c: Call, rest: string)
    requires Closing(RunTo(c.args, OPENED))
    ensures CallAt(false, Source(c) + rest) == Some(c)
  {
    hide CallName, HeadAt, CloseAt, RunTo;
    var s := Source(c) + rest;
    var tail := c.args + ")" + rest;
    assert s == CallName(c.func, c.suffix) + "(" + tail;
    HeadThere(c.func, c.suffix, tail);
    ArgsClose(c.args, rest, OPENED);
    assert tail[..|c.args|] == c.args;
  }

  lemma CallClosing(w: bool, s: string)
    requires CallAt(w, s).Some?
    ensures Closing(RunTo(CallAt(w, s).value.args, OPENED)) && !w
  {
    hide Lookup;
    ClosedArgs(s[ParenAt(s) + 1..], OPENED);
  }

  // ---------------------------------------------------------------- the written call

  /** The test for raw signals does not look at trailing blanks. */
  ghost predicate IgnoresBlanks(campB: string -> bool) {
    forall a :: campB(RStrip(a)) == campB(a)
  }

  lemma {:induction false} StripStrip(a: string)
    ensures RStrip(RStrip(a)) == RStrip(a)
    decreases |a|
  {
    if a != "" && IsSpace(a[|a| - 1]) {
      StripStrip(a[..|a| - 1]);
    }
  }

  /** A rewritten call closes, has one argument, holds no call, and is left alone when
      it is met again. */
  lemma TargetFinal(c: Call, campB: string -> bool)
    requires Closing(RunTo(c.args, OPENED)) && Headless(false, c.args) && IgnoresBlanks(campB)
    ensures var t := Target(c, campB);
      && Closing(RunTo(t.args, OPENED)) && Headless(false, t.args)
      && !IsStripped(t) && !IsRenamed(t, campB) && Target(t, campB) == t
  {
    hide RunTo, Headless, CommaAt, RStrip, Closing;
    var a1 := Arg1(c);
    var n := CommaAt(c.args, OPENED);
    IsSome(c.args);
    CommaRun(c.args, OPENED);
    RunPrefix(c.args, n, OPENED);
    assert c.args[..|c.args|] == c.args;
    assert Closing(RunTo(a1, OPENED));
    StripRun(a1, OPENED);
    HeadlessPrefix(false, c.args, n);
    var t := Target(c, campB);
    assert a1[..|t.args|] == t.args;
    HeadlessPrefix(false, a1, |t.args|);
    IsSome(a1);
    RunPrefix(a1, |t.args|, OPENED);
    assert t.args[..|t.args|] == t.args;
    StripStrip(a1);
    assert campB(t.args) == campB(a1);
  }

  lemma IsSome(a: string)
    requires Closing(RunTo(a, OPENED))
    ensures RunTo(a, OPENED).Some?
  {
  }

  // ---------------------------------------------------------------- unclosed calls stay unclosed

  /** One character that starts no call. */
  lemma PlainStep(w: bool, s: string, campB: string -> bool)
    requires s != "" && CallAt(w, s) == None
    ensures Rewrite(w, s, campB) == [s[0]] + Rewrite(IsWord(s[0]), s[1..], campB)
    ensures Flat(w, s) == Flat(IsWord(s[0]), s[1..])
    ensures Pieces(w, s) == [Plain(s[0])] + Pieces(IsWord(s[0]), s[1..])
  {
    hide CallAt;
  }

  /** One call. */
  lemma CallStep(w: bool, s: string, campB: string -> bool)
    requires CallAt(w, s).Some?
    ensures var c := CallAt(w, s).value;
      && Source(c) <= s
      && var rest := s[|Source(c)|..];
      && Rewrite(w, s, campB) == Source(Target(c, campB)) + Rewrite(false, rest, campB)
      && Flat(w, s) == (Headless(false, c.args) && Flat(false, rest))
      && Pieces(w, s) == [Whole(c)] + Pieces(false, rest)
  {
    hide Lookup, CloseAt, Source, Target, Headless;
    SourcePrefix(w, s);
  }

  /** What is copied over the name of a call that does not close. */
  lemma {:induction false} NameWalk(w: bool, s: string, x: string, campB: string -> bool)
    requires AllWord(x) && x + "(" <= s && (w || CallAt(w, s) == None)
    ensures Rewrite(w, s, campB) == x + "(" + Rewrite(false, s[|x| + 1..], campB)
    ensures Flat(w, s) == Flat(false, s[|x| + 1..])
    ensures CallsOf(Pieces(w, s)) == CallsOf(Pieces(false, s[|x| + 1..]))
    decreases x
  {
    hide CallAt, Rewrite, Flat, Pieces;
    WordNoCall(s);
    PlainStep(w, s, campB);
    assert s[0] == (x + "(")[0];
    if x == "" {
      assert !IsWord('(');
      assert x + "(" == "(";
    } else {
      assert IsWord(x[0]);
      assert (x + "(")[1..] == x[1..] + "(";
      NameWalk(true, s[1..], x[1..], campB);
      assert s[1..][|x|..] == s[|x| + 1..];
      assert x + "(" == [x[0]] + (x[1..] + "(");
    }
  }

  function CallsOf(ps: seq<Piece>): seq<Call> {
    if ps == [] then [] else (match ps[0] case Plain(_) => [] case Whole(c) => [c]) + CallsOf(ps[1..])
  }

  lemma WordNoCall(s: string)
    ensures HeadAt(true, s) == None && CallAt(true, s) == None
  {
  }

  /** A name and parenthesis in the output were there in the input. */
  lemma {:induction false} WalkBack(w: bool, s: string, x: string, campB: string -> bool)
    requires AllWord(x) && x + "(" <= Rewrite(w, s, campB) && (w || CallAt(w, s) == None)
    ensures x + "(" <= s
    decreases x
  {
    hide HeadAt, CloseAt;
    WordNoCall(s);
    var out := Rewrite(w, s, campB);
    assert s != "" && out[0] == (x + "(")[0] == s[0];
    if x != "" {
      assert IsWord(x[0]);
      assert out[1..] == Rewrite(true, s[1..], campB);
      assert (x + "(")[1..] == x[1..] + "(";
      assert x[1..] + "(" <= out[1..];
      WalkBack(true, s[1..], x[1..], campB);
      assert s == [s[0]] + s[1..] && x + "(" == [x[0]] + (x[1..] + "(");
    }
  }

  lemma {:induction false} RunConcat(a: string, b: string, q: Scan)
    requires RunTo(a, q).Some?
    ensures RunTo(a + b, q) == RunTo(b, RunTo(a, q).value)
    decreases a
  {
    if a == "" {
      assert a + b == b;
    } else {
      assert (a + b)[1..] == a[1..] + b;
      RunConcat(a[1..], b, Step(q, a[0]));
    }
  }

  lemma OneStep(c: char, q: Scan)
    requires q.depth > 0 && Step(q, c).depth > 0
    ensures RunTo([c], q) == Some(Step(q, c))
  {
    assert [c][1..] == "";
  }

  lemma {:induction false} RunCloses(a: string, b: string, q: Scan)
    requires RunTo(a, q) == None && q.depth > 0
    ensures CloseAt(a + b, q).Some? && CloseAt(a + b, q).value < |a|
    decreases a
  {
    assert (a + b)[1..] == a[1..] + b;
    if Step(q, a[0]).depth > 0 {
      RunCloses(a[1..], b, Step(q, a[0]));
    }
  }

  lemma {:induction false} RunDepth(a: string, q: Scan)
    requires q.depth > 0 && RunTo(a, q).Some?
    ensures RunTo(a, q).value.depth > 0
    decreases a
  {
    if a != "" {
      RunDepth(a[1..], Step(q, a[0]));
    }
  }

  lemma ClosePlain(t: string, q: Scan)
    requires t != "" && q.depth > 0
    ensures CloseAt(t, q) == None <==> Step(q, t[0]).depth > 0 && CloseAt(t[1..], Step(q, t[0])) == None
  {
  }

  /** `Stays` looks ahead at the rewritten text. */
  lemma {:induction false} StaysOpen(q: Scan, w: bool, t: string, campB: string -> bool)
    requires q.depth > 0
    ensures Stays(q, w, t, campB) <==> CloseAt(Rewrite(w, t, campB), q) == None
    decreases |t|
  {
    hide CallAt, Source, Target, CloseAt, RunTo;
    var out := Rewrite(w, t, campB);
    if t == "" {
      CloseNothing(q);
    } else {
      match CallAt(w, t) {
        case None =>
          ClosePlain(out, q);
          assert out[1..] == Rewrite(IsWord(t[0]), t[1..], campB);
          if Step(q, t[0]).depth > 0 {
            StaysOpen(Step(q, t[0]), IsWord(t[0]), t[1..], campB);
          }
        case Some(c) =>
          SourcePrefix(w, t);
          var rest, target := t[|Source(c)|..], Source(Target(c, campB));
          if RunTo(target, q) == None {
            RunCloses(target, Rewrite(false, rest, campB), q);
          } else {
            RunDepth(target, q);
            StaysOpen(RunTo(target, q).value, false, rest, campB);
            CloseRun(target, Rewrite(false, rest, campB), q);
          }
      }
    }
  }

  lemma CloseNothing(q: Scan)
    ensures CloseAt("", q) == None
  {
  }

  // ---------------------------------------------------------------- the second run

  /** Where no call is rewritten none is found afterwards. */
  lemma NoNewCall(w: bool, s: string, campB: string -> bool)
    requires s != "" && CallAt(w, s) == None && Firm(w, s, campB)
    ensures CallAt(w, Rewrite(w, s, campB)) == None
  {
    hide Lookup, CallName, Rewrite, Stays, CloseAt, ParenAt;
    var out := Rewrite(w, s, campB);
    if HeadAt(w, out).Some? {
      HeadIs(w, out);
      var (f, x) := HeadAt(w, out).value;
      var name := CallName(f, x);
      NameWord(f, x);
      WalkBack(w, s, name, campB);
      var body := s[|name| + 1..];
      assert s == name + "(" + body;
      HeadThere(f, x, body);
      NameWalk(w, s, name, campB);
      HeadThere(f, x, Rewrite(false, body, campB));
      StaysOpen(OPENED, false, body, campB);
    }
  }

  lemma FirmPlain(w: bool, s: string, campB: string -> bool)
    requires s == "" || CallAt(w, s) == None
    ensures s == "" ==> Firm(w, s, campB)
    ensures s != "" ==> (Firm(w, s, campB) <==>
      Firm(IsWord(s[0]), s[1..], campB) && (HeadAt(w, s).Some? ==> Stays(OPENED, false, s[ParenAt(s) + 1..], campB)))
  {
    hide CallAt, Stays, HeadAt;
    HeadParen(w, s);
  }

  lemma FirmCall(w: bool, s: string, campB: string -> bool)
    requires CallAt(w, s).Some?
    ensures |Source(CallAt(w, s).value)| <= |s|
    ensures Firm(w, s, campB) == Firm(false, s[|Source(CallAt(w, s).value)|..], campB)
  {
    hide CallAt, Source, Stays;
    SourcePrefix(w, s);
  }

  /** The rewritten text falls into the same pieces, each call replaced by its target,
      and its calls do not nest. */
  lemma {:induction false} PiecesAgain(w: bool, s: string, campB: string -> bool)
    requires Flat(w, s) && Firm(w, s, campB) && IgnoresBlanks(campB)
    ensures Pieces(w, Rewrite(w, s, campB)) == Retarget(Pieces(w, s), campB)
    ensures Flat(w, Rewrite(w, s, campB))
    decreases |s|
  {
    if s != "" {
      hide CallAt, Source, Headless, IgnoresBlanks, Target, Firm, Rewrite, Flat, Pieces, Retarget;
      var out := Rewrite(w, s, campB);
      match CallAt(w, s) {
        case None =>
          PlainStep(w, s, campB);
          FirmPlain(w, s, campB);
          NoNewCall(w, s, campB);
          PiecesAgain(IsWord(s[0]), s[1..], campB);
          assert out[1..] == Rewrite(IsWord(s[0]), s[1..], campB);
          PlainStep(w, out, campB);
          RetargetPlain(s[0], Pieces(IsWord(s[0]), s[1..]), campB);
        case Some(c) =>
          CallStep(w, s, campB);
          FirmCall(w, s, campB);
          CallAgain(w, s, c, campB);
          PiecesAgain(false, s[|Source(c)|..], campB);
          RetargetWhole(c, Pieces(false, s[|Source(c)|..]), campB);
      }
    }
  }

  lemma CallAgain(w: bool, s: string, c: Call, campB: string -> bool)
    requires CallAt(w, s) == Some(c) && Headless(false, c.args) && IgnoresBlanks(campB) && Source(c) <= s
    ensures var out, next := Rewrite(w, s, campB), Rewrite(false, s[|Source(c)|..], campB);
      && Pieces(w, out) == [Whole(Target(c, campB))] + Pieces(false, next)
      && Flat(w, out) == Flat(false, next)
  {
    hide CallAt, Source, Headless, IgnoresBlanks, Target, Rewrite, Flat, Pieces;
    var out, next := Rewrite(w, s, campB), Rewrite(false, s[|Source(c)|..], campB);
    var t := Target(c, campB);
    CallStep(w, s, campB);
    CallClosing(w, s);
    TargetFinal(c, campB);
    CallThere(t, next);
    CallStep(w, out, campB);
    assert out[|Source(t)|..] == next;
  }

  lemma RetargetPlain(c: char, ps: seq<Piece>, campB: string -> bool)
    ensures Retarget([Plain(c)] + ps, campB) == [Plain(c)] + Retarget(ps, campB)
  {
  }

  lemma RetargetWhole(c: Call, ps: seq<Piece>, campB: string -> bool)
    ensures Retarget([Whole(c)] + ps, campB) == [Whole(Target(c, campB))] + Retarget(ps, campB)
  {
  }

  lemma {:induction false} TextOfPieces(w: bool, s: string, campB: string -> bool)
    ensures TextOf(Pieces(w, s)) == s
    ensures TextOf(Retarget(Pieces(w, s), campB)) == Rewrite(w, s, campB)
    decreases |s|
  {
    hide CallAt, Source, Target;
    if s != "" {
      match CallAt(w, s) {
        case None =>
          TextOfPieces(IsWord(s[0]), s[1..], campB);
          RetargetPlain(s[0], Pieces(IsWord(s[0]), s[1..]), campB);
        case Some(c) =>
          SourcePrefix(w, s);
          TextOfPieces(false, s[|Source(c)|..], campB);
          RetargetWhole(c, Pieces(false, s[|Source(c)|..]), campB);
          assert s == Source(c) + s[|Source(c)|..];
      }
    }
  }

  // ---------------------------------------------------------------- the loop over matches

  /** A match cannot reach across a closing parenthesis. */
  lemma HeadNotAcross(w: bool, p: string, rest: string)
    requires HeadAt(w, p + ")" + rest).Some?
    ensures HeadAt(w, p).Some?
  {
    hide Lookup, CallName;
    var t := p + ")" + rest;
    HeadIs(w, t);
    var n := ParenAt(t);
    var (f, x) := HeadAt(w, t).value;
    NameWord(f, x);
    assert t[..n] == CallName(f, x);
    assert forall k :: 0 <= k < n ==> t[..n][k] == t[k];
    assert t[|p|] == ')' && !IsWord(')');
    assert n < |p|;
    assert p[n] == t[n] && p[..n] == t[..n];
    AroundParen(p, n);
    HeadThere(f, x, p[n + 1..]);
  }

  /** The matches behind a call's parenthesis are those behind the call. */
  lemma {:induction false} FindsSkip(s: string, a: nat, b: nat)
    requires a <= b < |s| && s[b] == ')' && Headless(WordBefore(s, a), s[a..b])
    ensures Finds(s, a) == Finds(s, b + 1)
    decreases b - a
  {
    hide HeadAt;
    assert s[a..] == s[a..b] + ")" + s[b + 1..];
    EmptyHead(WordBefore(s, a));
    if HeadAt(WordBefore(s, a), s[a..]).Some? {
      HeadNotAcross(WordBefore(s, a), s[a..b], s[b + 1..]);
    }
    if a < b {
      assert s[a..b][1..] == s[a + 1..b];
      FindsSkip(s, a + 1, b);
    }
  }

  lemma EmptyHead(w: bool)
    ensures HeadAt(w, "") == None
  {
  }

  lemma NoneFound(s: string)
    ensures FoundIn(s, [])
  {
  }

  lemma OneMoreFound(s: string, done: seq<nat>, i: nat)
    requires FoundIn(s, done) && i < |s| && HeadAt(WordBefore(s, i), s[i..]).Some?
    ensures FoundIn(s, done + [i])
  {
    hide HeadAt;
  }

  lemma MoreFound(s: string, done: seq<nat>, i: nat, campB: string -> bool)
    requires FoundIn(s, done) && FoundIn(s, done + [i]) && i < |s|
    ensures var (out, last) := Written(s, done, campB);
      match CallIn(s, i)
      case None => Written(s, done + [i], campB) == (out, last)
      case Some(c) =>
        Written(s, done + [i], campB) == (out + Slice(s, last, i) + Source(Target(c, campB)), i + |Source(c)|)
    ensures Closed(s, done + [i]) ==
      Closed(s, done) + match CallIn(s, i) case None => [] case Some(c) => [c]
  {
    hide HeadAt, CallIn, Source, Target, FoundIn, Slice;
    assert (done + [i])[..|done|] == done;
  }

  /** What the loop has written, followed by the text up to `i` and the rewritten rest. */
  function Pending(s: string, done: seq<nat>, i: nat, campB: string -> bool): string
    requires FoundIn(s, done) && Written(s, done, campB).1 <= i <= |s|
  {
    var (out, last) := Written(s, done, campB);
    out + s[last..i] + Rewrite(WordBefore(s, i), s[i..], campB)
  }

  /** The name of a call that does not close is copied. */
  lemma NameCopied(w: bool, t: string, campB: string -> bool)
    requires HeadAt(w, t).Some? && CallAt(w, t) == None
    ensures var n := ParenAt(t);
      && n < |t| && t[n] == '('
      && Rewrite(w, t, campB) == t[..n + 1] + Rewrite(false, t[n + 1..], campB)
      && (Flat(w, t) ==> Flat(false, t[n + 1..]))
      && CallsOf(Pieces(w, t)) == CallsOf(Pieces(false, t[n + 1..]))
  {
    hide HeadAt, Flat, Pieces, Rewrite, CallName, CallAt;
    HeadIs(w, t);
    var (f, x) := HeadAt(w, t).value;
    NameWord(f, x);
    NameWalk(w, t, CallName(f, x), campB);
    assert t[..ParenAt(t) + 1] == CallName(f, x) + "(";
  }

  lemma AfterName(s: string, i: nat, campB: string -> bool)
    requires i < |s| && HeadAt(WordBefore(s, i), s[i..]).Some? && CallIn(s, i) == None
    ensures var w, t, next := WordBefore(s, i), s[i..], i + ParenAt(s[i..]) + 1;
      && next <= |s| && !WordBefore(s, next) && t[..next - i] + s[next..] == t
      && Rewrite(w, t, campB) == t[..next - i] + Rewrite(false, s[next..], campB)
      && (Flat(w, t) ==> Flat(false, s[next..]))
      && CallsOf(Pieces(w, t)) == CallsOf(Pieces(false, s[next..]))
  {
    hide HeadAt, Flat, Pieces, Rewrite, CallAt, ParenAt, CallsOf;
    var t := s[i..];
    NameCopied(WordBefore(s, i), t, campB);
    var next := i + ParenAt(t) + 1;
    assert s[next - 1] == '(' && !IsWord('(');
    assert t[ParenAt(t) + 1..] == s[next..];
  }

  /** Over a match that does not close. */
  lemma OverUnclosed(s: string, done: seq<nat>, i: nat, campB: string -> bool)
    requires i < |s| && FoundIn(s, done) && Written(s, done, campB).1 <= i && Flat(WordBefore(s, i), s[i..])
    requires HeadAt(WordBefore(s, i), s[i..]).Some? && CallIn(s, i) == None
    ensures var next := i + ParenAt(s[i..]) + 1;
      && next <= |s| && FoundIn(s, done + [i]) && Flat(WordBefore(s, next), s[next..])
      && Written(s, done + [i], campB) == Written(s, done, campB)
      && Pending(s, done + [i], next, campB) == Pending(s, done, i, campB)
      && Closed(s, done + [i]) == Closed(s, done)
      && CallsOf(Pieces(WordBefore(s, next), s[next..])) == CallsOf(Pieces(WordBefore(s, i), s[i..]))
  {
    hide HeadAt, Written, Closed, FoundIn, Flat, Pieces, Rewrite, CallIn, ParenAt, CallsOf, WordBefore;
    OneMoreFound(s, done, i);
    MoreFound(s, done, i, campB);
    AfterName(s, i, campB);
    var next := i + ParenAt(s[i..]) + 1;
    var (out, last) := Written(s, done, campB);
    CopyOn(out, s, last, i, next, Rewrite(false, s[next..], campB));
    assert Closed(s, done) + [] == Closed(s, done);
  }

  lemma CopyOn(out: string, s: string, last: nat, i: nat, next: nat, rest: string)
    requires last <= i <= next <= |s|
    ensures out + s[last..i] + (s[i..][..next - i] + rest) == out + s[last..next] + rest
  {
  }

  /** Over a character at which no match starts. */
  lemma OverPlain(s: string, done: seq<nat>, i: nat, campB: string -> bool)
    requires i < |s| && FoundIn(s, done) && Written(s, done, campB).1 <= i
    requires CallIn(s, i) == None
    ensures Flat(WordBefore(s, i), s[i..]) ==> Flat(WordBefore(s, i + 1), s[i + 1..])
    ensures Pending(s, done, i + 1, campB) == Pending(s, done, i, campB)
    ensures CallsOf(Pieces(WordBefore(s, i + 1), s[i + 1..])) == CallsOf(Pieces(WordBefore(s, i), s[i..]))
  {
    hide CallAt, Written, FoundIn, Flat, Pieces, Rewrite;
    PlainStep(WordBefore(s, i), s[i..], campB);
    assert s[i..][1..] == s[i + 1..];
    var last := Written(s, done, campB).1;
    assert s[last..i + 1] == s[last..i] + [s[i]];
  }

  /** Over a closed call, to the text behind it. */
  lemma OverCall(s: string, done: seq<nat>, i: nat, campB: string -> bool)
    requires i < |s| && FoundIn(s, done) && Written(s, done, campB).1 <= i && Flat(WordBefore(s, i), s[i..])
    requires HeadAt(WordBefore(s, i), s[i..]).Some? && CallIn(s, i).Some?
    ensures var c := CallIn(s, i).value; var end := i + |Source(c)|;
      && end <= |s| && FoundIn(s, done + [i]) && Flat(WordBefore(s, end), s[end..])
      && Written(s, done + [i], campB).1 == end
      && Pending(s, done + [i], end, campB) == Pending(s, done, i, campB)
      && Closed(s, done + [i]) == Closed(s, done) + [c]
      && CallsOf(Pieces(WordBefore(s, i), s[i..])) == [c] + CallsOf(Pieces(WordBefore(s, end), s[end..]))
      && Finds(s, i) == [i] + Finds(s, end)
  {
    hide HeadAt, CallAt, Written, Closed, FoundIn, Flat, Pieces, Rewrite, Source, Target, Headless, Finds;
    var c := CallIn(s, i).value;
    SourceThere(s, i);
    OneMoreFound(s, done, i);
    MoreFound(s, done, i, campB);
    CallStep(WordBefore(s, i), s[i..], campB);
    var end := i + |Source(c)|;
    assert s[i..][|Source(c)|..] == s[end..];
    CallEnds(s, i);
    assert s[end..end] == "";
  }

  /** Where the parts of a call stand. */
  lemma CallShape(w: bool, t: string)
    requires CallAt(w, t).Some?
    ensures var c, n := CallAt(w, t).value, ParenAt(t);
      && HeadAt(w, t).Some? && n < |t| && t[n] == '(' && |Source(c)| == n + |c.args| + 2 <= |t|
      && t[|Source(c)| - 1] == ')' && c.args == t[n + 1..|Source(c)| - 1]
  {
    hide CloseAt, CallName, Lookup;
    var c, n := CallAt(w, t).value, ParenAt(t);
    SourcePrefix(w, t);
    CallNames(w, t);
    HeadIs(w, t);
    assert t[|Source(c)| - 1] == Source(c)[|Source(c)| - 1];
    Slices(t, n + 1, n + 1 + |c.args|);
  }

  lemma Window(s: string, i: nat, a: nat, b: nat)
    requires i + b <= |s| && a <= b
    ensures s[i..][a..b] == s[i + a..i + b]
  {
  }

  /** A call ends with its parenthesis, and no further match starts inside it. */
  lemma CallEnds(s: string, i: nat)
    requires i < |s| && HeadAt(WordBefore(s, i), s[i..]).Some? && CallIn(s, i).Some?
    requires Headless(false, CallIn(s, i).value.args)
    ensures var c := CallIn(s, i).value; var end := i + |Source(c)|;
      end <= |s| && s[end - 1] == ')' && !WordBefore(s, end) && Finds(s, i) == [i] + Finds(s, end)
  {
    hide HeadAt, CallAt, Headless, Source, Finds, ParenAt;
    var c, t := CallIn(s, i).value, s[i..];
    CallShape(WordBefore(s, i), t);
    var a, end := i + ParenAt(t) + 1, i + |Source(c)|;
    assert s[a - 1] == '(' && s[end - 1] == ')';
    FindsStep(s, i);
    Window(s, i, a - i, end - 1 - i);
    FindsSkip(s, a, end - 1);
  }

  lemma CallNames(w: bool, s: string)
    requires CallAt(w, s).Some?
    ensures var c := CallAt(w, s).value; HeadAt(w, s) == Some((c.func, c.suffix))
  {
  }

  lemma LoopEnds(s: string, done: seq<nat>, campB: string -> bool)
    requires FoundIn(s, done)
    ensures Finds(s, |s|) == [] && done + Finds(s, |s|) == done
    ensures var (out, last) := Written(s, done, campB); out + s[last..] == Pending(s, done, |s|, campB)
    ensures Closed(s, done) == Closed(s, done) + CallsOf(Pieces(WordBefore(s, |s|), s[|s|..]))
  {
    hide Written, Closed;
    assert s[|s|..] == "";
    var (out, last) := Written(s, done, campB);
    assert s[last..] == s[last..|s|];
  }

  /** Standing at `i` with all before it dealt with, the loop goes on to write the
      rewritten rest and to meet the calls of the rest. */
  predicate GoesOn(s: string, done: seq<nat>, i: nat, campB: string -> bool)
    requires i <= |s|
  {
    var all := done + Finds(s, i);
    && FoundIn(s, done) && FoundIn(s, all) && Written(s, done, campB).1 <= i
    && Written(s, all, campB).0 + s[Written(s, all, campB).1..] == Pending(s, done, i, campB)
    && Closed(s, all) == Closed(s, done) + CallsOf(Pieces(WordBefore(s, i), s[i..]))
  }

  predicate Ready(s: string, done: seq<nat>, i: nat, campB: string -> bool) {
    i <= |s| && FoundIn(s, done) && Written(s, done, campB).1 <= i && Flat(WordBefore(s, i), s[i..])
  }

  lemma ReadyNext(s: string, done: seq<nat>, i: nat, campB: string -> bool)
    requires i < |s| && Ready(s, done, i, campB)
    ensures var w, t := WordBefore(s, i), s[i..];
      if HeadAt(w, t) == None then Ready(s, done, i + 1, campB)
      else if CallIn(s, i) == None then Ready(s, done + [i], i + ParenAt(t) + 1, campB)
      else Ready(s, done + [i], i + |Source(CallIn(s, i).value)|, campB)
  {
    hide HeadAt, CallIn, Flat, FoundIn, Written, ParenAt, Source, Pending, Closed, Pieces, CallsOf, Finds, WordBefore;
    if HeadAt(WordBefore(s, i), s[i..]) == None {
      NoCallIn(s, i);
      OverPlain(s, done, i, campB);
    } else if CallIn(s, i) == None {
      OverUnclosed(s, done, i, campB);
    } else {
      OverCall(s, done, i, campB);
    }
  }

  lemma ThenPlain(s: string, done: seq<nat>, i: nat, campB: string -> bool)
    requires i < |s| && Ready(s, done, i, campB)
    requires HeadAt(WordBefore(s, i), s[i..]) == None && GoesOn(s, done, i + 1, campB)
    ensures GoesOn(s, done, i, campB)
  {
    hide Finds, FoundIn, Written, Closed, CallsOf, Pieces, Pending, HeadAt, CallIn, Flat;
    FindsStep(s, i);
    NoCallIn(s, i);
    OverPlain(s, done, i, campB);
  }

  lemma ThenUnclosed(s: string, done: seq<nat>, i: nat, next: nat, campB: string -> bool)
    requires i < |s| && Ready(s, done, i, campB) && next == i + ParenAt(s[i..]) + 1 <= |s|
    requires HeadAt(WordBefore(s, i), s[i..]).Some? && CallIn(s, i) == None && GoesOn(s, done + [i], next, campB)
    ensures GoesOn(s, done, i, campB)
  {
    hide Finds, FoundIn, Written, Closed, CallsOf, Pieces, Pending, HeadAt, CallIn, Flat, ParenAt;
    FindsStep(s, i);
    OverUnclosed(s, done, i, campB);
    assert done + ([i] + Finds(s, next)) == done + [i] + Finds(s, next);
  }

  lemma ThenCall(s: string, done: seq<nat>, i: nat, end: nat, campB: string -> bool)
    requires i < |s| && Ready(s, done, i, campB)
    requires HeadAt(WordBefore(s, i), s[i..]).Some? && CallIn(s, i).Some?
    requires end == i + |Source(CallIn(s, i).value)| <= |s| && GoesOn(s, done + [i], end, campB)
    ensures GoesOn(s, done, i, campB)
  {
    hide Finds, FoundIn, Written, Closed, CallsOf, Pieces, Pending, HeadAt, CallIn, Flat, Source;
    OverCall(s, done, i, campB);
    assert done + ([i] + Finds(s, end)) == done + [i] + Finds(s, end);
    Reassociate(Closed(s, done), CallIn(s, i).value, CallsOf(Pieces(WordBefore(s, end), s[end..])));
  }

  lemma LoopStops(s: string, done: seq<nat>, campB: string -> bool)
    requires Ready(s, done, |s|, campB)
    ensures GoesOn(s, done, |s|, campB)
  {
    hide Finds, FoundIn, Written, Closed, CallsOf, Pieces, Pending, Flat;
    LoopEnds(s, done, campB);
  }

  lemma {:induction false} LoopIsRewrite(s: string, done: seq<nat>, i: nat, campB: string -> bool)
    requires i <= |s| && Ready(s, done, i, campB)
    ensures GoesOn(s, done, i, campB)
    decreases |s| - i
  {
    hide HeadAt, CallIn, Ready, GoesOn, Source, Flat;
    if i == |s| {
      LoopStops(s, done, campB);
    } else {
      var w, t := WordBefore(s, i), s[i..];
      ReadyNext(s, done, i, campB);
      if HeadAt(w, t) == None {
        LoopIsRewrite(s, done, i + 1, campB);
        ThenPlain(s, done, i, campB);
      } else if CallIn(s, i) == None {
        HeadParen(w, t);
        LoopIsRewrite(s, done + [i], i + ParenAt(t) + 1, campB);
        ThenUnclosed(s, done, i, i + ParenAt(t) + 1, campB);
      } else {
        SourceThere(s, i);
        var end := i + |Source(CallIn(s, i).value)|;
        SourceSize(s, i);
        LoopIsRewrite(s, done + [i], end, campB);
        ThenCall(s, done, i, end, campB);
      }
    }
  }

  lemma SourceSize(s: string, i: nat)
    requires i <= |s| && CallIn(s, i).Some?
    ensures |Source(CallIn(s, i).value)| > 1
  {
  }

  lemma Reassociate(a: seq<Call>, c: Call, b: seq<Call>)
    ensures a + [c] + b == a + ([c] + b)
  {
  }

  lemma FindsStep(s: string, i: nat)
    requires i < |s|
    ensures if HeadAt(WordBefore(s, i), s[i..]) == None then Finds(s, i) == Finds(s, i + 1)
      else i + ParenAt(s[i..]) + 1 <= |s| && Finds(s, i) == [i] + Finds(s, i + ParenAt(s[i..]) + 1)
  {
    hide HeadAt;
    HeadParen(WordBefore(s, i), s[i..]);
  }

  lemma NoCallIn(s: string, i: nat)
    requires i < |s| && HeadAt(WordBefore(s, i), s[i..]) == None
    ensures CallIn(s, i) == None
  {
    NoHeadNoCall(WordBefore(s, i), s[i..]);
  }

  lemma NoHeadNoCall(w: bool, s: string)
    requires HeadAt(w, s) == None
    ensures CallAt(w, s) == None
  {
  }

  /** Where calls do not nest the loop over the matches is the single pass. */
  lemma TransformIsRewrite(s: string, campB: string -> bool)
    requires Flat(false, s)
    ensures Transformed(s, campB) == Rewrite(false, s, campB)
    ensures AllClosed(s) == CallsOf(Pieces(false, s))
  {
    hide Finds, Flat, Rewrite, Pieces;
    assert s[0..] == s && s[0..0] == "";
    FindsFound(s, 0);
    LoopIsRewrite(s, [], 0, campB);
    assert [] + Finds(s, 0) == Finds(s, 0);
  }

  /** Text outside closed calls, unclosed calls included, is copied character for
      character; each closed call is replaced by its target. */
  lemma OutsideVerbatim(s: string, campB: string -> bool)
    requires Flat(false, s)
    ensures s == TextOf(Pieces(false, s))
    ensures Transformed(s, campB) == TextOf(Retarget(Pieces(false, s), campB))
    ensures AllClosed(s) == CallsOf(Pieces(false, s))
  {
    TransformIsRewrite(s, campB);
    TextOfPieces(false, s, campB);
  }

  // ---------------------------------------------------------------- idempotence

  /** Every call piece is one a scan closes and that holds no call. */
  predicate Settled(ps: seq<Piece>) {
    forall p :: p in ps && p.Whole? ==> Closing(RunTo(p.call.args, OPENED)) && Headless(false, p.call.args)
  }

  lemma {:induction false} PiecesSettled(w: bool, s: string, campB: string -> bool)
    requires Flat(w, s)
    ensures Settled(Pieces(w, s))
    decreases |s|
  {
    hide CallAt, Closing, Headless, Flat, Pieces, Source;
    if s == "" {
      NoPieces(w);
    } else if CallAt(w, s) == None {
      PlainStep(w, s, campB);
      PiecesSettled(IsWord(s[0]), s[1..], campB);
    } else {
      CallStep(w, s, campB);
      CallClosing(w, s);
      PiecesSettled(false, s[|Source(CallAt(w, s).value)|..], campB);
    }
  }

  lemma NoPieces(w: bool)
    ensures Pieces(w, "") == []
  {
  }

  lemma RetargetTwice(ps: seq<Piece>, campB: string -> bool)
    requires Settled(ps) && IgnoresBlanks(campB)
    ensures Retarget(Retarget(ps, campB), campB) == Retarget(ps, campB)
  {
    hide Closing, Headless, Target, IgnoresBlanks;
    forall i | 0 <= i < |ps| && ps[i].Whole?
      ensures Target(Target(ps[i].call, campB), campB) == Target(ps[i].call, campB)
    {
      assert ps[i] in ps;
      TargetFinal(ps[i].call, campB);
    }
  }

  /** No call of the list would be renamed or lose an argument. */
  predicate AllFinal(cs: seq<Call>, campB: string -> bool) {
    forall c :: c in cs ==> !IsStripped(c) && !IsRenamed(c, campB)
  }

  lemma {:induction false} RetargetFinal(ps: seq<Piece>, campB: string -> bool)
    requires Settled(ps) && IgnoresBlanks(campB)
    ensures AllFinal(CallsOf(Retarget(ps, campB)), campB)
    ensures |CallsOf(Retarget(ps, campB))| == |CallsOf(ps)|
    decreases ps
  {
    hide Closing, Headless, Target, IgnoresBlanks, IsStripped, IsRenamed;
    if ps != [] {
      assert ps[0] in ps;
      assert Settled(ps[1..]) by {
        assert forall p :: p in ps[1..] ==> p in ps;
      }
      RetargetFinal(ps[1..], campB);
      assert ps == [ps[0]] + ps[1..];
      if ps[0].Whole? {
        TargetFinal(ps[0].call, campB);
        RetargetWhole(ps[0].call, ps[1..], campB);
      } else {
        RetargetPlain(ps[0].c, ps[1..], campB);
      }
      assert Retarget(ps, campB)[1..] == Retarget(ps[1..], campB);
    }
  }

  /** Where every unclosed call stays unclosed a second run changes nothing and reports
      nothing: it meets as many calls as the first, each with one argument and none to
      rename. */
  lemma FirmIsFinal(s: string, campB: string -> bool)
    requires Flat(false, s) && Firm(false, s, campB) && IgnoresBlanks(campB)
    ensures var t := Transformed(s, campB);
      && Transformed(t, campB) == t
      && AllFinal(AllClosed(t), campB) && |AllClosed(t)| == |AllClosed(s)|
  {
    hide Flat, Firm, Pieces, Rewrite, Retarget, IgnoresBlanks, Settled, TextOf;
    OutsideVerbatim(s, campB);
    TransformIsRewrite(s, campB);
    PiecesAgain(false, s, campB);
    var t := Transformed(s, campB);
    OutsideVerbatim(t, campB);
    PiecesSettled(false, s, campB);
    RetargetTwice(Pieces(false, s), campB);
    RetargetFinal(Pieces(false, s), campB);
  }
}
