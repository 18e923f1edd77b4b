/**
 The names of the convert functions in scripts/fix_grafana_unit_conversions.py, spelled
 out, and what a call of each is rewritten to.
*/
module SqlNames {
  import opened PyStrings
  import opened Wrappers
  import opened SqlCalls
  import opened SqlRewriting

  // ---------------------------------------------------------------- the names

  function Spelled(f: Func, x: Suffix): string {
    match (f, x)
    case (Distance, Bare) => "convert_distance"
    case (Distance, Pa) => "convert_distance_pa"
    case (Distance, M) => "convert_distance_m"
    case (Distance, Mps) => "convert_distance_mps"
    case (Speed, Bare) => "convert_speed"
    case (Speed, Pa) => "convert_speed_pa"
    case (Speed, M) => "convert_speed_m"
    case (Speed, Mps) => "convert_speed_mps"
    case (Pressure, Bare) => "convert_pressure"
    case (Pressure, Pa) => "convert_pressure_pa"
    case (Pressure, M) => "convert_pressure_m"
    case (Pressure, Mps) => "convert_pressure_mps"
    case (Temp, Bare) => "convert_temp"
    case (Temp, Pa) => "convert_temp_pa"
    case (Temp, M) => "convert_temp_m"
    case (Temp, Mps) => "convert_temp_mps"
    case (Efficiency, Bare) => "convert_efficiency"
    case (Efficiency, Pa) => "convert_efficiency_pa"
    case (Efficiency, M) => "convert_efficiency_m"
    case (Efficiency, Mps) => "convert_efficiency_mps"
  }

  /** The name that is written: a raw pressure, distance or speed gets the name of the
      function that takes SI units, and nothing else changes. */
  function NewName(f: Func, x: Suffix, raw: bool): string {
    match (f, x)
    case (Pressure, Bare) => if raw then "convert_pressure_pa" else "convert_pressure"
    case (Distance, Bare) => if raw then "convert_distance_m" else "convert_distance"
    case (Speed, Bare) => if raw then "convert_speed_mps" else "convert_speed"
    case _ => Spelled(f, x)
  }

  lemma BareIs(f: Func)
    ensures CallName(f, Bare) == Spelled(f, Bare)
  {
  }

  lemma PaIs(f: Func)
    ensures CallName(f, Pa) == Spelled(f, Pa)
  {
  }

  lemma MIs(f: Func)
    ensures CallName(f, M) == Spelled(f, M)
  {
  }

  lemma MpsIs(f: Func)
    ensures CallName(f, Mps) == Spelled(f, Mps)
  {
  }

  lemma SpelledIs(f: Func, x: Suffix)
    ensures CallName(f, x) == Spelled(f, x)
  {
    hide CallName, Spelled;
    match x
    case Bare => BareIs(f);
    case Pa => PaIs(f);
    case M => MIs(f);
    case Mps => MpsIs(f);
  }

  /** A letter, a digit or an underscore. */
  predicate IsSign(c: char) {
    'a' <= c <= 'z' || 'A' <= c <= 'Z' || '0' <= c <= '9' || c == '_'
  }

  /** A match of the call pattern starts at `i` exactly when one of the twenty names stands
      there with a parenthesis behind it and no letter, digit or underscore before it. */
  lemma MatchIff(s: string, i: nat, f: Func, x: Suffix)
    requires i <= |s|
    ensures HeadAt(WordBefore(s, i), s[i..]) == Some((f, x)) <==>
            (i == 0 || !IsSign(s[i - 1])) && Spelled(f, x) + "(" <= s[i..]
  {
    hide HeadAt, Spelled;
    HeadIff(WordBefore(s, i), s[i..], f, x);
  }

  lemma HeadIff(w: bool, s: string, f: Func, x: Suffix)
    ensures HeadAt(w, s) == Some((f, x)) <==> !w && Spelled(f, x) + "(" <= s
  {
    hide CallName, Lookup, Spelled;
    SpelledIs(f, x);
    if HeadAt(w, s) == Some((f, x)) {
      HeadIs(w, s);
      assert CallName(f, x) + "(" <= CallName(f, x) + "(" + s[ParenAt(s) + 1..];
    }
    if !w && Spelled(f, x) + "(" <= s {
      var rest := s[|Spelled(f, x)| + 1..];
      assert s == CallName(f, x) + "(" + rest;
      HeadThere(f, x, rest);
    }
  }

  // ---------------------------------------------------------------- what is written

  lemma NewNameIs(c: Call, campB: string -> bool)
    ensures CallName(c.func, Target(c, campB).suffix) == NewName(c.func, c.suffix, campB(Arg1(c)))
  {
    hide CallName, Spelled;
    SpelledIs(c.func, Target(c, campB).suffix);
    TableAgrees(c.func, c.suffix, campB(Arg1(c)));
  }

  lemma TableAgrees(f: Func, x: Suffix, raw: bool)
    ensures var y := if raw && x == Bare && Renamed(f).Some? then Renamed(f).value else x;
      NewName(f, x, raw) == Spelled(f, y)
  {
  }

  /** A call and the one written in its place, letter by letter. */
  lemma TargetSpelled(c: Call, campB: string -> bool)
    ensures Source(c) == Spelled(c.func, c.suffix) + "(" + c.args + ")"
    ensures Source(Target(c, campB)) == NewName(c.func, c.suffix, campB(Arg1(c))) + "(" + RStrip(Arg1(c)) + ")"
  {
    hide CallName, Spelled, NewName, RStrip;
    SpelledIs(c.func, c.suffix);
    NewNameIs(c, campB);
  }

  /** A first argument: it balances, and no comma in it stands outside its own strings
      and parentheses. */
  predicate IsArgument(a: string) {
    Closing(RunTo(a, OPENED)) && CommaAt(a, OPENED) == |a|
  }

  lemma {:induction false} CommaBehind(a: string, more: string, q: Scan)
    requires RunTo(a, q).Some? && CommaAt(a, q) == |a|
    ensures CommaAt(a + more, q) == |a| + CommaAt(more, RunTo(a, q).value)
    decreases a
  {
    if a == "" {
      assert a + more == more;
    } else {
      assert (a + more)[1..] == a[1..] + more;
      CommaBehind(a[1..], more, Step(q, a[0]));
    }
  }

  lemma FirstArgument(c: Call, a: string, more: string)
    requires c.args == a + more && IsArgument(a) && (more == "" || more[0] == ',')
    ensures Arg1(c) == a
  {
    CommaBehind(a, more, OPENED);
  }

  /** One call: its name, its first argument, and perhaps more behind a comma. It is
      written under the new name with the first argument alone. */
  lemma CallRewritten(f: Func, x: Suffix, a: string, more: string, campB: string -> bool)
    requires IsArgument(a) && (more == "" || more[0] == ',')
    requires Closing(RunTo(a + more, OPENED)) && Headless(false, a + more)
    ensures Transformed(Spelled(f, x) + "(" + (a + more) + ")", campB) ==
            NewName(f, x, campB(a)) + "(" + RStrip(a) + ")"
  {
    hide CallName, Spelled, NewName, RStrip, Source, Target, RunTo, Headless, CommaAt, Rewrite, Closing, Pieces;
    var c := Call(f, x, a + more);
    FirstArgument(c, a, more);
    TargetSpelled(c, campB);
    var t := Source(c);
    CallThere(c, "");
    assert t + "" == t;
    SourceNotEmpty(c);
    FlatCall(c, t);
    TransformIsRewrite(t, campB);
    CallStep(false, t, campB);
    assert t[|t|..] == "";
    NothingMore(campB);
    assert Source(Target(c, campB)) + "" == Source(Target(c, campB));
  }

  lemma SourceNotEmpty(c: Call)
    ensures Source(c) != ""
  {
  }

  lemma FlatCall(c: Call, t: string)
    requires t == Source(c) && t != "" && CallAt(false, t) == Some(c) && Headless(false, c.args)
    ensures Flat(false, t)
  {
    hide CallAt, Source;
    assert t[|t|..] == "";
  }

  lemma NothingMore(campB: string -> bool)
    ensures Rewrite(false, "", campB) == ""
  {
  }
}
