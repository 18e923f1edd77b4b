/**
 When a second run of scripts/fix_grafana_unit_conversions.py changes nothing: a text
 is left alone only if no closed call lies inside another, so on texts whose calls do
 not nest the second run is the identity exactly when the first closes no open call.
*/
module SqlFixedPoints {
  import opened PyStrings
  import opened Wrappers
  import opened SqlCalls
  import opened SqlRewriting

  // ---------------------------------------------------------------- the loop, forwards

  /** What the loop still writes for the calls at or behind `i`, having read up to `last`. */
  function Rest(t: string, i: nat, last: nat, campB: string -> bool): string
    requires i <= |t| && last <= |t|
    decreases |t| - i
  {
    if i == |t| then t[last..]
    else match CallIn(t, i)
      case None => Rest(t, i + 1, last, campB)
      case Some(c) =>
        SourceThere(t, i);
        Slice(t, last, i) + Source(Target(c, campB)) + Rest(t, i + 1, i + |Source(c)|, campB)
  }

  lemma RestPlain(t: string, i: nat, last: nat, campB: string -> bool)
    requires i < |t| && last <= |t| && CallIn(t, i) == None
    ensures Rest(t, i, last, campB) == Rest(t, i + 1, last, campB)
  {
    hide CallIn;
  }

  lemma RestCall(t: string, i: nat, last: nat, campB: string -> bool)
    requires i < |t| && last <= |t| && CallIn(t, i).Some?
    ensures var c := CallIn(t, i).value;
      && i + |Source(c)| <= |t| && Source(c) <= t[i..] && |Source(c)| > 1
      && Rest(t, i, last, campB)
         == Slice(t, last, i) + Source(Target(c, campB)) + Rest(t, i + 1, i + |Source(c)|, campB)
  {
    hide CallIn, Source, Target, Slice;
    SourceThere(t, i);
    SourceSize(t, i);
  }

  lemma {:induction false} RestSkips(t: string, a: nat, b: nat, last: nat, campB: string -> bool)
    requires a <= b <= |t| && last <= |t| && forall j :: a <= j < b ==> CallIn(t, j) == None
    ensures Rest(t, a, last, campB) == Rest(t, b, last, campB)
    decreases b - a
  {
    hide CallIn, Rest;
    if a < b {
      RestPlain(t, a, last, campB);
      RestSkips(t, a + 1, b, last, campB);
    }
  }

  /** Text before the next call is copied. */
  lemma {:induction false} RestGap(t: string, i: nat, last: nat, mid: nat, campB: string -> bool)
    requires last <= mid <= i <= |t|
    ensures Rest(t, i, last, campB) == t[last..mid] + Rest(t, i, mid, campB)
    decreases |t| - i
  {
    hide CallIn, Source, Target;
    if i == |t| {
      assert t[last..] == t[last..mid] + t[mid..];
    } else if CallIn(t, i) == None {
      RestGap(t, i + 1, last, mid, campB);
    } else {
      assert t[last..i] == t[last..mid] + t[mid..i];
    }
  }

  /** No match starts inside a name. */
  lemma NameHolds(t: string, i: nat, j: nat)
    requires i < |t| && HeadAt(WordBefore(t, i), t[i..]).Some?
    requires i < j < i + ParenAt(t[i..]) + 1
    ensures j <= |t| && CallIn(t, j) == None
  {
    hide CallName;
    HeadIs(WordBefore(t, i), t[i..]);
    var (f, x) := HeadAt(WordBefore(t, i), t[i..]).value;
    NameWord(f, x);
    assert t[j - 1] == t[i..][j - 1 - i] == CallName(f, x)[j - 1 - i];
    WordNoCall(t[j..]);
  }

  lemma {:induction false} LoopForward(t: string, done: seq<nat>, i: nat, campB: string -> bool)
    requires i <= |t| && FoundIn(t, done)
    ensures FoundIn(t, done + Finds(t, i))
    ensures var w, all := Written(t, done, campB), Written(t, done + Finds(t, i), campB);
      all.0 + t[all.1..] == w.0 + Rest(t, i, w.1, campB)
    decreases |t| - i
  {
    hide CallIn, HeadAt, Written, FoundIn, Source, Target, Slice, ParenAt, WordBefore;
    if i == |t| {
      assert done + [] == done;
    } else {
      hide Finds, Rest;
      FindsStep(t, i);
      if HeadAt(WordBefore(t, i), t[i..]) == None {
        NoCallIn(t, i);
        RestPlain(t, i, Written(t, done, campB).1, campB);
        LoopForward(t, done, i + 1, campB);
      } else {
        LoopOver(t, done, i, campB);
        LoopForward(t, done + [i], i + ParenAt(t[i..]) + 1, campB);
        assert done + ([i] + Finds(t, i + ParenAt(t[i..]) + 1)) == done + [i] + Finds(t, i + ParenAt(t[i..]) + 1);
      }
    }
  }

  /** The loop's turn for one match. */
  lemma LoopOver(t: string, done: seq<nat>, i: nat, campB: string -> bool)
    requires i < |t| && FoundIn(t, done) && HeadAt(WordBefore(t, i), t[i..]).Some?
    ensures var next := i + ParenAt(t[i..]) + 1;
      && next <= |t| && FoundIn(t, done + [i])
      && var w, w' := Written(t, done, campB), Written(t, done + [i], campB);
      w'.0 + Rest(t, next, w'.1, campB) == w.0 + Rest(t, i, w.1, campB)
  {
    hide CallIn, HeadAt, Written, FoundIn, Source, Target, Slice, Rest, ParenAt;
    var next := i + ParenAt(t[i..]) + 1;
    HeadParen(WordBefore(t, i), t[i..]);
    OneMoreFound(t, done, i);
    MoreFound(t, done, i, campB);
    forall j | i < j < next ensures CallIn(t, j) == None {
      NameHolds(t, i, j);
    }
    var last := Written(t, done + [i], campB).1;
    RestSkips(t, i + 1, next, last, campB);
    var (out, before) := Written(t, done, campB);
    if CallIn(t, i) == None {
      RestPlain(t, i, before, campB);
    } else {
      RestCall(t, i, before, campB);
      var c := CallIn(t, i).value;
      Regrouped(out, Slice(t, before, i), Source(Target(c, campB)), Rest(t, next, last, campB));
    }
  }

  lemma Regrouped(a: string, b: string, c: string, d: string)
    ensures (a + b + c) + d == a + (b + c + d)
  {
  }

  lemma TransformedForward(t: string, campB: string -> bool)
    ensures Transformed(t, campB) == Rest(t, 0, 0, campB)
  {
    hide Finds, Rest, FoundIn, Written;
    FindsFound(t, 0);
    NoneFound(t);
    NothingWritten(t, campB);
    LoopForward(t, [], 0, campB);
    assert [] + Finds(t, 0) == Finds(t, 0);
    assert "" + Rest(t, 0, 0, campB) == Rest(t, 0, 0, campB);
  }

  lemma NothingWritten(t: string, campB: string -> bool)
    ensures FoundIn(t, []) && Written(t, [], campB) == ("", 0)
  {
  }

  // ---------------------------------------------------------------- counting closed calls

  /** The closed calls that start at or behind `i`. */
  function Count(t: string, i: nat): nat
    requires i <= |t|
    decreases |t| - i
  {
    if i == |t| then 0 else (if CallIn(t, i).Some? then 1 else 0) + Count(t, i + 1)
  }

  lemma {:induction false} CountFalls(t: string, a: nat, b: nat)
    requires a <= b <= |t|
    ensures Count(t, a) >= Count(t, b)
    ensures (exists j :: a <= j < b && CallIn(t, j).Some?) ==> Count(t, a) > Count(t, b)
    decreases b - a
  {
    hide CallIn;
    if a < b {
      CountFalls(t, a + 1, b);
    }
  }

  lemma TargetCloses(c: Call, campB: string -> bool)
    requires Closing(RunTo(c.args, OPENED))
    ensures Closing(RunTo(Target(c, campB).args, OPENED))
  {
    hide RunTo, CommaAt, RStrip, Closing;
    IsSome(c.args);
    CommaRun(c.args, OPENED);
    assert c.args[..|c.args|] == c.args;
    StripRun(Arg1(c), OPENED);
  }

  /** Every call still to be written is a closed call where it is written. */
  lemma {:induction false} WrittenCounted(x: string, b: nat, t: string, i: nat, last: nat, campB: string -> bool)
    requires b <= |x| && i <= |t| && last <= |t| && x[b..] == Rest(t, i, last, campB) && !WordBefore(x, b)
    ensures Count(x, b) >= Count(t, i)
    decreases |t| - i
  {
    hide CallIn, Source, Target, Rest;
    if i < |t| {
      if CallIn(t, i) == None {
        RestPlain(t, i, last, campB);
        WrittenCounted(x, b, t, i + 1, last, campB);
      } else {
        hide Count, WordBefore;
        WrittenHere(x, b, t, i, last, campB);
        var c := CallIn(t, i).value;
        var pos := b + |Slice(t, last, i)|;
        var next := pos + |Source(Target(c, campB))|;
        WrittenCounted(x, next, t, i + 1, i + |Source(c)|, campB);
        CountFalls(x, b, next);
        CountHere(t, i);
      }
    }
  }

  lemma CountHere(t: string, i: nat)
    requires i < |t| && CallIn(t, i).Some?
    ensures Count(t, i) == 1 + Count(t, i + 1)
  {
    hide CallIn;
  }

  /** The next call to be written, where it is written. */
  lemma WrittenHere(x: string, b: nat, t: string, i: nat, last: nat, campB: string -> bool)
    requires b <= |x| && i < |t| && last <= |t| && x[b..] == Rest(t, i, last, campB) && !WordBefore(x, b)
    requires CallIn(t, i).Some?
    ensures var c := CallIn(t, i).value; var pos := b + |Slice(t, last, i)|;
      var next := pos + |Source(Target(c, campB))|;
      && i + |Source(c)| <= |t| && b <= pos < next <= |x| && CallIn(x, pos).Some? && !WordBefore(x, next)
      && x[next..] == Rest(t, i + 1, i + |Source(c)|, campB)
  {
    hide CallAt, Source, Rest, Target, Closing, RunTo;
    var c := CallIn(t, i).value;
    var gap, target := Slice(t, last, i), Target(c, campB);
    RestCall(t, i, last, campB);
    CallClosing(WordBefore(t, i), t[i..]);
    TargetCloses(c, campB);
    var rest := Rest(t, i + 1, i + |Source(c)|, campB);
    var pos, next := b + |gap|, b + |gap| + |Source(target)|;
    Cut(x, b, gap, Source(target), rest);
    CallThere(target, rest);
    SourceEnds(target);
    assert gap != "" ==> x[pos - 1] == gap[|gap| - 1] == t[i - 1];
  }

  lemma Cut(x: string, b: nat, gap: string, mid: string, rest: string)
    requires b <= |x| && x[b..] == gap + mid + rest
    ensures var pos, next := b + |gap|, b + |gap| + |mid|;
      && next <= |x| && x[pos..] == mid + rest && x[next..] == rest
      && (gap != "" ==> x[pos - 1] == gap[|gap| - 1]) && (mid != "" ==> x[next - 1] == mid[|mid| - 1])
  {
    var t := x[b..];
    assert x[b + |gap|..] == t[|gap|..];
    assert x[b + |gap| + |mid|..] == t[|gap| + |mid|..];
    assert gap != "" ==> x[b + |gap| - 1] == t[|gap| - 1];
    assert mid != "" ==> x[b + |gap| + |mid| - 1] == t[|gap| + |mid| - 1];
  }

  lemma SourceEnds(c: Call)
    ensures |Source(c)| > 1 && Source(c)[|Source(c)| - 1] == ')'
  {
  }

  // ---------------------------------------------------------------- fixed points do not nest

  lemma {:induction false} CommaIs(args: string, q: Scan)
    ensures CommaAt(args, q) < |args| ==> args[CommaAt(args, q)] == ','
    decreases args
  {
    if args != "" {
      CommaIs(args[1..], Step(q, args[0]));
    }
  }

  lemma Spread(y: string, name: string, args: string)
    requires name + "(" + args + ")" <= y
    ensures exists rest :: y == name + "(" + rest && args + ")" <= rest
    ensures |name| < |y| && name <= y && args + ")" <= y[|name| + 1..]
  {
    var tail := y[|name| + |args| + 2..];
    var rest := args + ")" + tail;
    assert y == (name + "(" + args + ")") + tail;
    assert y == name + "(" + rest;
    assert y[|name| + 1..] == rest;
  }

  lemma SourceParts(c: Call)
    ensures Source(c) == CallName(c.func, c.suffix) + "(" + c.args + ")"
  {
  }

  lemma NameGiven(c: Call, y: string)
    requires Source(c) <= y
    ensures ParenAt(y) == |CallName(c.func, c.suffix)| < |y| && CallName(c.func, c.suffix) <= y
    ensures c.args + ")" <= y[ParenAt(y) + 1..]
  {
    hide CallName, ParenAt, Source;
    var name := CallName(c.func, c.suffix);
    NameWord(c.func, c.suffix);
    SourceParts(c);
    Spread(y, name, c.args);
    var rest :| y == name + "(" + rest && c.args + ")" <= rest;
    ParenIs(name, rest);
  }

  /** A call can only be rewritten to what stands there already if it is final. */
  lemma TargetThere(c: Call, y: string, campB: string -> bool)
    requires Source(c) <= y && Source(Target(c, campB)) <= y
    ensures Target(c, campB) == c
  {
    hide CallName, CommaAt, RStrip, Source, IsRenamed;
    var t := Target(c, campB);
    NameGiven(c, y);
    NameGiven(t, y);
    assert CallName(t.func, t.suffix) == CallName(c.func, c.suffix);
    LookupBack(c.func, c.suffix);
    LookupBack(t.func, t.suffix);
    var z, k := y[ParenAt(y) + 1..], CommaAt(c.args, OPENED);
    CommaIs(c.args, OPENED);
    var m := |t.args|;
    assert (t.args + ")")[m] == ')' == z[m];
    assert m < |c.args| ==> (c.args + ")")[m] == c.args[m] == z[m];
    if m < k {
      StripRest(c.args[..k], m);
    }
    assert m == |c.args|;
    assert c.args[..k] == c.args;
  }

  /** A closed call at `q` that starts inside the closed call at `p`. */
  predicate Nested(t: string, p: nat, q: nat) {
    p < q <= |t| && CallIn(t, p).Some? && CallIn(t, q).Some? && q < p + |Source(CallIn(t, p).value)|
  }

  lemma NoCallAtEnd(t: string)
    ensures CallIn(t, |t|) == None
  {
    hide Lookup, CloseAt;
    assert t[|t|..] == "";
  }

  /** The call at `p`, if any, is written as it stands. */
  predicate Final(t: string, p: nat, campB: string -> bool) {
    p <= |t| && CallIn(t, p).Some? ==> Target(CallIn(t, p).value, campB) == CallIn(t, p).value
  }

  /** What the loop would write again as it stands holds no closed call inside another,
      and only final ones. */
  lemma {:induction false} FixedFlat(t: string, i: nat, p: nat, q: nat, campB: string -> bool)
    requires i <= p && i <= |t| && Rest(t, i, i, campB) == t[i..]
    ensures !Nested(t, p, q) && Final(t, p, campB)
    decreases |t| - i
  {
    hide CallIn, Source, Target, Rest, Count;
    if i == |t| {
      NoCallAtEnd(t);
    } else if CallIn(t, i) == None {
      RestPlain(t, i, i, campB);
      RestGap(t, i + 1, i, i + 1, campB);
      assert t[i..] == t[i..i + 1] + t[i + 1..];
      if p > i {
        FixedFlat(t, i + 1, p, q, campB);
      }
    } else {
      var e := FixedCall(t, i, campB);
      if p >= e {
        FixedFlat(t, e, p, q, campB);
      }
    }
  }

  /** Over one call: it is final, and no closed call starts inside it. */
  lemma FixedCall(t: string, i: nat, campB: string -> bool) returns (e: nat)
    requires i < |t| && CallIn(t, i).Some? && Rest(t, i, i, campB) == t[i..]
    ensures e == i + |Source(CallIn(t, i).value)| && i < e <= |t|
    ensures forall j :: i < j < e ==> CallIn(t, j) == None
    ensures Rest(t, e, e, campB) == t[e..] && Final(t, i, campB)
  {
    hide CallIn, Source, Target, Rest, Count;
    var c := CallIn(t, i).value;
    e := i + |Source(c)|;
    RestCall(t, i, i, campB);
    NoSlice(t, i);
    assert "" + Source(Target(c, campB)) == Source(Target(c, campB));
    TargetThere(c, t[i..], campB);
    Cut(t, i, "", Source(c), Rest(t, i + 1, e, campB));
    SourceEnds(c);
    assert !IsWord(')');
    WrittenCounted(t, e, t, i + 1, e, campB);
    CountFalls(t, i + 1, e);
    assert forall j :: i + 1 <= j < e ==> CallIn(t, j) == None;
    RestSkips(t, i + 1, e, e, campB);
  }

  lemma NoSlice(t: string, i: nat)
    requires i <= |t|
    ensures Slice(t, i, i) == ""
  {
  }

  /** A text that needs no run: closed calls do not nest, and each is its own target. */
  ghost predicate AtRest(t: string, campB: string -> bool) {
    (forall p: nat, q: nat :: !Nested(t, p, q)) && forall p: nat :: Final(t, p, campB)
  }

  lemma {:induction false} RestFixed(t: string, i: nat, campB: string -> bool)
    requires i <= |t| && AtRest(t, campB)
    ensures Rest(t, i, i, campB) == t[i..]
    decreases |t| - i
  {
    hide CallIn, Source, Target, Rest, Nested;
    if i == |t| {
      RestEnd(t, campB);
    } else if CallIn(t, i) == None {
      RestFixed(t, i + 1, campB);
      RestPlain(t, i, i, campB);
      RestGap(t, i + 1, i, i + 1, campB);
      assert t[i..] == t[i..i + 1] + t[i + 1..];
    } else {
      var c := CallIn(t, i).value;
      var e := i + |Source(c)|;
      RestCall(t, i, i, campB);
      NoSlice(t, i);
      assert Final(t, i, campB);
      forall j | i + 1 <= j < e
        ensures CallIn(t, j) == None
      {
        assert !Nested(t, i, j);
        InsideIsNested(t, i, j);
      }
      RestSkips(t, i + 1, e, e, campB);
      RestFixed(t, e, campB);
      assert t[i..] == t[i..][..|Source(c)|] + t[i..][|Source(c)|..];
      assert "" + Source(c) == Source(c) == t[i..][..|Source(c)|];
      assert t[i..][|Source(c)|..] == t[e..];
    }
  }

  lemma RestEnd(t: string, campB: string -> bool)
    ensures Rest(t, |t|, |t|, campB) == t[|t|..]
  {
  }

  lemma InsideIsNested(t: string, p: nat, q: nat)
    requires p < q <= |t| && CallIn(t, p).Some? && q < p + |Source(CallIn(t, p).value)|
    ensures Nested(t, p, q) <==> CallIn(t, q).Some?
  {
    hide CallIn, Source;
  }

  /** A run leaves a text as it stands if and only if its closed calls do not nest and
      each is its own target: with calls nested, no run is ever the last. */
  lemma FixedIff(t: string, campB: string -> bool)
    ensures Transformed(t, campB) == t <==> AtRest(t, campB)
  {
    hide Rest, Nested, Final;
    TransformedForward(t, campB);
    assert t[0..] == t;
    if AtRest(t, campB) {
      RestFixed(t, 0, campB);
    }
    if Rest(t, 0, 0, campB) == t {
      forall p: nat, q: nat
        ensures !Nested(t, p, q)
      {
        FixedFlat(t, 0, p, q, campB);
      }
      forall p: nat
        ensures Final(t, p, campB)
      {
        FixedFlat(t, 0, p, p, campB);
      }
    }
  }

  // ---------------------------------------------------------------- nested calls

  function Deeper(q: Scan): Scan {
    q.(depth := q.depth + 1)
  }

  lemma {:induction false} RunDeeper(a: string, q: Scan)
    requires q.depth > 0 && RunTo(a, q).Some?
    ensures RunTo(a, Deeper(q)) == Some(Deeper(RunTo(a, q).value))
    decreases a
  {
    if a != "" {
      RunDeeper(a[1..], Step(q, a[0]));
    }
  }

  lemma {:induction false} RunWord(a: string)
    requires AllWord(a)
    ensures RunTo(a, OPENED) == Some(OPENED)
    decreases a
  {
    if a != "" {
      assert IsWord(a[0]);
      RunWord(a[1..]);
    }
  }

  /** A call among the arguments is scanned over. */
  lemma SourceRun(d: Call)
    requires Closing(RunTo(d.args, OPENED))
    ensures Closing(RunTo(Source(d), OPENED))
  {
    hide CallName, RunTo;
    var name := CallName(d.func, d.suffix);
    NameWord(d.func, d.suffix);
    RunWord(name);
    RunConcat(name, "(", OPENED);
    OneStep('(', OPENED);
    RunDeeper(d.args, OPENED);
    RunConcat(name + "(", d.args, OPENED);
    RunConcat(name + "(" + d.args, ")", OPENED);
    OneStep(')', Deeper(RunTo(d.args, OPENED).value));
  }

  lemma {:induction false} NoParen(s: string)
    requires '(' !in s
    ensures ParenAt(s) == |s|
    decreases s
  {
    if s != "" {
      NoParen(s[1..]);
    }
  }

  lemma NoCallWithout(t: string, i: nat)
    requires i <= |t| && '(' !in t[i..]
    ensures CallIn(t, i) == None
  {
    hide Lookup, CloseAt;
    NoParen(t[i..]);
  }

  /** A call whose whole argument is a call: the inner call is written a second time
      behind the outer one, with a parenthesis that nothing opens. */
  lemma NestedCopied(c: Call, d: Call, campB: string -> bool)
    requires c.args == Source(d) && Closing(RunTo(d.args, OPENED)) && '(' !in d.args
    ensures Transformed(Source(c), campB) == Source(Target(c, campB)) + Source(Target(d, campB)) + ")"
  {
    hide CallIn, Source, Target, Rest, RunTo, CallName, Closing;
    var t, n := Source(c), |CallName(c.func, c.suffix)| + 1;
    NestedParts(c, d);
    TransformedForward(t, campB);
    RestCall(t, 0, 0, campB);
    NoSlice(t, 0);
    RestSkips(t, 1, n, |t|, campB);
    RestCall(t, n, |t|, campB);
    var e := n + |Source(d)|;
    RestSkips(t, n + 1, |t|, e, campB);
    LastRest(t, e, campB);
    assert Slice(t, |t|, n) == "";
    var x, y := Source(Target(c, campB)), Source(Target(d, campB));
    assert ("" + x) + (("" + y) + ")") == x + y + ")";
  }

  lemma LastRest(t: string, last: nat, campB: string -> bool)
    requires last <= |t|
    ensures Rest(t, |t|, last, campB) == t[last..]
  {
  }

  /** The closed calls of such a text, and where they are. */
  lemma NestedParts(c: Call, d: Call)
    requires c.args == Source(d) && Closing(RunTo(d.args, OPENED)) && '(' !in d.args
    ensures var t, n := Source(c), |CallName(c.func, c.suffix)| + 1; var e := n + |Source(d)|;
      && 1 <= n < e < |t| && t[e..] == ")"
      && CallIn(t, 0) == Some(c) && CallIn(t, n) == Some(d)
      && (forall j :: 1 <= j < n ==> CallIn(t, j) == None)
      && forall j :: n < j < |t| ==> CallIn(t, j) == None
  {
    hide CallAt, RunTo, CallName, HeadAt, Closing;
    var t, name := Source(c), CallName(c.func, c.suffix);
    var n := |name| + 1;
    SourceRun(d);
    CallThere(c, "");
    assert t + "" == t && t[0..] == t;
    CallThere(d, ")");
    assert t == name + "(" + (Source(d) + ")");
    assert t[n..] == Source(d) + ")" && t[n - 1] == '(';
    HeadsIn(t, 0, c.func, c.suffix, Source(d) + ")");
    NestedTail(t, n, d);
  }

  lemma HeadsIn(t: string, i: nat, f: Func, x: Suffix, rest: string)
    requires i <= |t| && t[i..] == CallName(f, x) + "(" + rest && !WordBefore(t, i)
    ensures forall j :: i < j < i + |CallName(f, x)| + 1 ==> j <= |t| && CallIn(t, j) == None
  {
    hide CallAt, CallName, HeadAt, ParenAt;
    HeadThere(f, x, rest);
    forall j | i < j < i + |CallName(f, x)| + 1
      ensures j <= |t| && CallIn(t, j) == None
    {
      NameHolds(t, i, j);
    }
  }

  lemma NestedTail(t: string, n: nat, d: Call)
    requires 0 < n <= |t| && t[n..] == Source(d) + ")" && t[n - 1] == '(' && '(' !in d.args
    ensures forall j :: n < j < |t| ==> CallIn(t, j) == None
  {
    hide CallAt, CallName, HeadAt;
    var name := CallName(d.func, d.suffix);
    var tail := d.args + ")" + ")";
    assert t[n..] == name + "(" + tail;
    HeadsIn(t, n, d.func, d.suffix, tail);
    forall j | n + |name| + 1 <= j < |t|
      ensures CallIn(t, j) == None
    {
      assert t[j..] == t[n..][j - n..] == tail[j - n - |name| - 1..];
      assert forall ch :: ch in t[j..] ==> ch in tail;
      NoCallWithout(t, j);
    }
  }

  // ---------------------------------------------------------------- calls that the first run closes

  /** The closed call at `p` in a text that a word character may precede. */
  function CallFrom(w: bool, x: string, p: nat): Option<Call>
    requires p <= |x|
  {
    CallAt(if p == 0 then w else IsWord(x[p - 1]), x[p..])
  }

  predicate NestedFrom(w: bool, x: string, p: nat, q: nat) {
    && p < q <= |x| && CallFrom(w, x, p).Some? && CallFrom(w, x, q).Some?
    && q < p + |Source(CallFrom(w, x, p).value)|
  }

  /** Behind other text the same calls nest. */
  lemma NestedBehind(w: bool, a: string, v: bool, x: string, p: nat, q: nat)
    requires NestedFrom(v, x, p, q) && a != "" && v == IsWord(a[|a| - 1])
    ensures NestedFrom(w, a + x, |a| + p, |a| + q)
  {
    hide CallAt, Source;
    SameFrom(w, a, v, x, p);
    SameFrom(w, a, v, x, q);
  }

  lemma SameFrom(w: bool, a: string, v: bool, x: string, p: nat)
    requires p <= |x| && a != "" && v == IsWord(a[|a| - 1])
    ensures CallFrom(w, a + x, |a| + p) == CallFrom(v, x, p)
  {
    hide CallAt;
    assert (a + x)[|a| + p..] == x[p..];
    assert (a + x)[|a| + p - 1] == if p == 0 then a[|a| - 1] else x[p - 1];
  }

  /** A scan that closes only after the rewriting closes behind a rewritten call. */
  lemma {:induction false} CallBefore(q: Scan, w: bool, t: string, campB: string -> bool) returns (j: nat)
    requires q.depth > 0 && CloseAt(t, q) == None && CloseAt(Rewrite(w, t, campB), q).Some?
    ensures j <= CloseAt(Rewrite(w, t, campB), q).value < |Rewrite(w, t, campB)|
    ensures CallFrom(w, Rewrite(w, t, campB), j).Some?
    decreases |t|
  {
    hide CallAt, Source, Target, CloseAt, Rewrite, Flat, Pieces, Step, IsWord;
    CloseNothing(q);
    NothingRewritten(w, campB);
    if CallAt(w, t) == None {
      StillBefore(q, w, t, campB);
      var k := CallBefore(Step(q, t[0]), IsWord(t[0]), t[1..], campB);
      SameFrom(w, [t[0]], IsWord(t[0]), Rewrite(IsWord(t[0]), t[1..], campB), k);
      j := k + 1;
    } else {
      var c := CallAt(w, t).value;
      CallStep(w, t, campB);
      CallClosing(w, t);
      TargetCloses(c, campB);
      CallThere(Target(c, campB), Rewrite(false, t[|Source(c)|..], campB));
      assert Rewrite(w, t, campB)[0..] == Rewrite(w, t, campB);
      j := 0;
    }
  }

  lemma NothingRewritten(w: bool, campB: string -> bool)
    ensures Rewrite(w, "", campB) == ""
  {
  }

  /** Over one character outside calls. */
  lemma StillBefore(q: Scan, w: bool, t: string, campB: string -> bool)
    requires t != "" && q.depth > 0 && CallAt(w, t) == None
    requires CloseAt(t, q) == None && CloseAt(Rewrite(w, t, campB), q).Some?
    ensures var next, out := Step(q, t[0]), Rewrite(IsWord(t[0]), t[1..], campB);
      && next.depth > 0 && CloseAt(t[1..], next) == None && CloseAt(out, next).Some?
      && CloseAt(Rewrite(w, t, campB), q).value == CloseAt(out, next).value + 1
      && Rewrite(w, t, campB) == [t[0]] + out
  {
    hide CallAt, CloseAt, Rewrite, Flat, Pieces, Step, IsWord;
    PlainStep(w, t, campB);
    var out := Rewrite(w, t, campB);
    assert out[1..] == Rewrite(IsWord(t[0]), t[1..], campB);
    CloseNext(t, q);
    CloseNext(out, q);
  }

  /** A scan that is still open after one character goes on behind it. */
  lemma CloseNext(t: string, q: Scan)
    requires t != "" && q.depth > 0
    ensures Step(q, t[0]).depth > 0 ==> CloseAt(t, q).Some? == CloseAt(t[1..], Step(q, t[0])).Some?
    ensures Step(q, t[0]).depth > 0 && CloseAt(t, q).Some? ==>
      CloseAt(t, q).value == CloseAt(t[1..], Step(q, t[0])).value + 1
    ensures Step(q, t[0]).depth == 0 ==> CloseAt(t, q) == Some(0)
  {
  }

  /** Where a call is closed by the first run, its result has a closed call inside
      another. */
  lemma {:induction false} ClosedNests(w: bool, s: string, campB: string -> bool) returns (p: nat, q: nat)
    requires !Firm(w, s, campB)
    ensures NestedFrom(w, Rewrite(w, s, campB), p, q)
    decreases |s|
  {
    hide CallAt, Source, Target, Stays, Rewrite, NestedFrom, Firm, HeadAt, ParenAt, Flat, Pieces;
    if CallAt(w, s) == None {
      FirmPlain(w, s, campB);
      PlainStep(w, s, campB);
      if Firm(IsWord(s[0]), s[1..], campB) {
        p, q := OpenedNests(w, s, campB);
      } else {
        p, q := ClosedNests(IsWord(s[0]), s[1..], campB);
        NestedBehind(w, [s[0]], IsWord(s[0]), Rewrite(IsWord(s[0]), s[1..], campB), p, q);
        p, q := p + 1, q + 1;
      }
    } else {
      CallStep(w, s, campB);
      FirmCall(w, s, campB);
      var c := CallAt(w, s).value;
      var target := Source(Target(c, campB));
      SourcePrefix(w, s);
      p, q := ClosedNests(false, s[|Source(c)|..], campB);
      SourceEnds(Target(c, campB));
      NestedBehind(w, target, false, Rewrite(false, s[|Source(c)|..], campB), p, q);
      p, q := |target| + p, |target| + q;
    }
  }

  /** The call that is closed, and the rewritten one it then holds. */
  lemma OpenedNests(w: bool, s: string, campB: string -> bool) returns (p: nat, q: nat)
    requires s != "" && CallAt(w, s) == None && HeadAt(w, s).Some?
    requires !Stays(OPENED, false, s[ParenAt(s) + 1..], campB)
    ensures NestedFrom(w, Rewrite(w, s, campB), p, q)
  {
    hide Lookup, CallName, Rewrite, Stays, CloseAt, ParenAt, CallAt, Source;
    HeadIs(w, s);
    var (f, x) := HeadAt(w, s).value;
    var name, body := CallName(f, x), s[ParenAt(s) + 1..];
    NameWord(f, x);
    NameWalk(w, s, name, campB);
    var out, inner := Rewrite(w, s, campB), Rewrite(false, body, campB);
    StaysOpen(OPENED, false, body, campB);
    OpenBody(w, s);
    var j := CallBefore(OPENED, false, body, campB);
    var k := CloseAt(inner, OPENED).value;
    HeadThere(f, x, inner);
    ClosedHere(w, out, inner, k);
    SameFrom(w, name + "(", false, inner, j);
    assert out == name + "(" + inner && out[0..] == out;
    p, q := 0, |name| + 1 + j;
  }

  lemma OpenBody(w: bool, s: string)
    requires HeadAt(w, s).Some? && CallAt(w, s) == None
    ensures CloseAt(s[ParenAt(s) + 1..], OPENED) == None
  {
    hide Lookup;
  }

  lemma ClosedHere(w: bool, out: string, inner: string, k: nat)
    requires HeadAt(w, out).Some? && out[ParenAt(out) + 1..] == inner && CloseAt(inner, OPENED) == Some(k)
    ensures CallAt(w, out).Some? && |Source(CallAt(w, out).value)| == ParenAt(out) + k + 2
  {
    hide Lookup, CloseAt;
    CallShape(w, out);
  }

  // ---------------------------------------------------------------- the second run

  lemma NotFirmChanges(s: string, campB: string -> bool)
    requires Flat(false, s) && !Firm(false, s, campB)
    ensures Transformed(Transformed(s, campB), campB) != Transformed(s, campB)
  {
    hide Flat, Firm, Rewrite, Rest, CallAt;
    TransformIsRewrite(s, campB);
    var t := Transformed(s, campB);
    var p, q := ClosedNests(false, s, campB);
    TransformedForward(t, campB);
    assert t[0..] == t;
    if Rest(t, 0, 0, campB) == t[0..] {
      FixedFlat(t, 0, p, q, campB);
    }
  }

  /** On a text whose calls do not nest a second run changes nothing if and only if no
      unclosed call is closed by the rewriting of the calls behind it. It then meets as
      many calls as the first, each with one argument and none to rename. */
  lemma TransformIdempotentIff(s: string, campB: string -> bool)
    requires Flat(false, s) && IgnoresBlanks(campB)
    ensures var t := Transformed(s, campB);
      && (Transformed(t, campB) == t <==> Firm(false, s, campB))
      && (Firm(false, s, campB) ==> AllFinal(AllClosed(t), campB) && |AllClosed(t)| == |AllClosed(s)|)
  {
    hide *;
    if Firm(false, s, campB) {
      FirmIsFinal(s, campB);
    } else {
      NotFirmChanges(s, campB);
    }
  }
}
