/**
 The rewriting of convert_* calls in dashboard SQL by
 scripts/fix_grafana_unit_conversions.py: the quote-aware argument splitter, the
 loop over the matches, and the one-pass form both amount to.
*/
module SqlCalls {
  import opened PyStrings
  import opened Wrappers

  // ---------------------------------------------------------------- names

  datatype Func = Distance | Speed | Pressure | Temp | Efficiency
  datatype Suffix = Bare | Pa | M | Mps

  function FuncText(f: Func): string {
    match f
    case Distance => "distance"
    case Speed => "speed"
    case Pressure => "pressure"
    case Temp => "temp"
    case Efficiency => "efficiency"
  }

  function SuffixText(x: Suffix): string {
    match x
    case Bare => ""
    case Pa => "_pa"
    case M => "_m"
    case Mps => "_mps"
  }

  function CallName(f: Func, x: Suffix): string {
    "convert_" + FuncText(f) + SuffixText(x)
  }

  function FuncAt(c: char): Option<Func> {
    match c
    case 'd' => Some(Distance)
    case 's' => Some(Speed)
    case 'p' => Some(Pressure)
    case 't' => Some(Temp)
    case 'e' => Some(Efficiency)
    case _ => None
  }

  /** The function and suffix a whole name spells. */
  function Lookup(name: string): Option<(Func, Suffix)> {
    if |name| < 9 || FuncAt(name[8]) == None then None
    else
      var f := FuncAt(name[8]).value;
      if name == CallName(f, Bare) then Some((f, Bare))
      else if name == CallName(f, Pa) then Some((f, Pa))
      else if name == CallName(f, M) then Some((f, M))
      else if name == CallName(f, Mps) then Some((f, Mps))
      else None
  }

  predicate IsWord(c: char) {
    'a' <= c <= 'z' || 'A' <= c <= 'Z' || '0' <= c <= '9' || c == '_'
  }

  predicate AllWord(s: string) {
    forall k :: 0 <= k < |s| ==> IsWord(s[k])
  }

  /** The offset of the first opening parenthesis, or the length. */
  function ParenAt(s: string): (n: nat)
    ensures n <= |s| && (n < |s| ==> s[n] == '(') && '(' !in s[..n]
  {
    if s == "" || s[0] == '(' then 0 else 1 + ParenAt(s[1..])
  }

  /** The match of the call pattern at the start of `s`; `w` says whether a word
      character stands before it. */
  function HeadAt(w: bool, s: string): Option<(Func, Suffix)> {
    var n := ParenAt(s);
    if w || n == |s| then None else Lookup(s[..n])
  }

  // ---------------------------------------------------------------- arguments

  /** Where `split_call` stands: parentheses open, inside a string, and whether the
      character just read was a backslash. */
  datatype Scan = Scan(depth: nat, quoted: bool, escaped: bool)

  const OPENED := Scan(1, false, false)

  function Step(q: Scan, c: char): Scan {
    if c == '\'' && !q.escaped then Scan(q.depth, !q.quoted, false)
    else if q.quoted then Scan(q.depth, true, c == '\\')
    else if c == '(' then Scan(q.depth + 1, false, false)
    else if c == ')' && q.depth > 0 then Scan(q.depth - 1, false, false)
    else Scan(q.depth, false, c == '\\')
  }

  /** The offset of the parenthesis that closes the call, if there is one. */
  function CloseAt(s: string, q: Scan): (r: Option<nat>)
    ensures r.Some? ==> r.value < |s| && s[r.value] == ')'
  {
    if s == "" then None
    else
      var next := Step(q, s[0]);
      if next.depth == 0 && q.depth > 0 then Some(0)
      else match CloseAt(s[1..], next)
        case None => None
        case Some(k) => Some(k + 1)
  }

  predicate IsComma(q: Scan, c: char) {
    c == ',' && !q.quoted && q.depth == 1
  }

  /** The offset of the first comma between the call's own arguments, or the length. */
  function CommaAt(args: string, q: Scan): (n: nat)
    ensures n <= |args|
  {
    if args == "" || IsComma(q, args[0]) then 0 else 1 + CommaAt(args[1..], Step(q, args[0]))
  }

  datatype Call = Call(func: Func, suffix: Suffix, args: string)

  function Arg1(c: Call): string {
    c.args[..CommaAt(c.args, OPENED)]
  }

  function Source(c: Call): string {
    CallName(c.func, c.suffix) + "(" + c.args + ")"
  }

  /** The closed call at the start of `s`. */
  function CallAt(w: bool, s: string): Option<Call> {
    match HeadAt(w, s)
    case None => None
    case Some((f, x)) =>
      var n := ParenAt(s);
      match CloseAt(s[n + 1..], OPENED)
      case None => None
      case Some(k) => Some(Call(f, x, s[n + 1..][..k]))
  }

  // The same two searches by index, for the loop.

  function CloseFrom(s: string, i: nat, q: Scan): (r: Option<nat>)
    requires i <= |s|
    ensures r.Some? ==> i <= r.value < |s|
    decreases |s| - i
  {
    if i == |s| then None
    else
      var next := Step(q, s[i]);
      if next.depth == 0 && q.depth > 0 then Some(i) else CloseFrom(s, i + 1, next)
  }

  function CommaFrom(s: string, i: nat, end: nat, q: Scan): (n: nat)
    requires i <= end <= |s|
    ensures i <= n <= end
    decreases end - i
  {
    if i == end || IsComma(q, s[i]) then i else CommaFrom(s, i + 1, end, Step(q, s[i]))
  }

  lemma {:induction false} CloseIndex(s: string, i: nat, q: Scan)
    requires i <= |s|
    ensures CloseFrom(s, i, q) == match CloseAt(s[i..], q) case None => None case Some(k) => Some(i + k)
    decreases |s| - i
  {
    if i < |s| {
      assert s[i..][1..] == s[i + 1..];
      CloseIndex(s, i + 1, Step(q, s[i]));
    }
  }

  lemma {:induction false} CommaIndex(s: string, i: nat, end: nat, q: Scan)
    requires i <= end <= |s|
    ensures CommaFrom(s, i, end, q) == i + CommaAt(s[i..end], q)
    decreases end - i
  {
    if i < end {
      assert s[i..end][1..] == s[i + 1..end];
      CommaIndex(s, i + 1, end, Step(q, s[i]));
    }
  }

  /** What `split_call` is to find for the call opened at `parenOpen`. */
  function Split(s: string, parenOpen: nat): Option<(nat, string, string)>
    requires parenOpen < |s|
  {
    var rest := s[parenOpen + 1..];
    match CloseAt(rest, OPENED)
    case None => None
    case Some(k) => Some((parenOpen + k + 2, rest[..k], rest[..k][..CommaAt(rest[..k], OPENED)]))
  }

  lemma SplitIndex(s: string, parenOpen: nat)
    requires parenOpen < |s|
    ensures var start := parenOpen + 1;
      match CloseFrom(s, start, OPENED)
      case None => Split(s, parenOpen) == None
      case Some(e) => Split(s, parenOpen) == Some((e + 1, s[start..e], s[start..CommaFrom(s, start, e, OPENED)]))
  {
    hide CloseAt, CommaAt, CloseFrom, CommaFrom;
    var start := parenOpen + 1;
    CloseIndex(s, start, OPENED);
    var r := CloseFrom(s, start, OPENED);
    if r.Some? {
      CommaIndex(s, start, r.value, OPENED);
      Slices(s, start, r.value);
      Narrowed(s, start, CommaFrom(s, start, r.value, OPENED), r.value);
    }
  }

  lemma Slices(s: string, a: nat, b: nat)
    requires a <= b <= |s|
    ensures s[a..][..b - a] == s[a..b]
  {
  }

  lemma Narrowed(s: string, a: nat, b: nat, c: nat)
    requires a <= b <= c <= |s|
    ensures s[a..c][..b - a] == s[a..b]
  {
  }

  /** `split_call`: the index behind the call, its arguments and the first of them;
      nothing when the parentheses never balance. */
  method SplitCall(s: string, parenOpen: nat) returns (r: Option<(nat, string, string)>)
    requires parenOpen < |s| && s[parenOpen] == '('
    ensures r == Split(s, parenOpen)
  {
    hide Split;
    SplitIndex(s, parenOpen);
    var start := parenOpen + 1;
    ghost var close := CloseFrom(s, start, OPENED);
    ghost var end := if close.Some? then close.value else |s|;
    var depth, i, arg1End, inString := 1, start, -1, false;
    ghost var q := OPENED;
    while i < |s| && depth > 0
      invariant start <= i <= end && depth >= 1
      invariant q == Scan(depth, inString, s[i - 1] == '\\')
      invariant CloseFrom(s, i, q) == close
      invariant CommaFrom(s, start, end, OPENED) == if arg1End == -1 then CommaFrom(s, i, end, q) else arg1End
      invariant arg1End == -1 || start <= arg1End
    {
      var ch := s[i];
      if ch == '\'' && (i == 0 || s[i - 1] != '\\') {
        inString := !inString;
      } else if !inString {
        if ch == '(' {
          depth := depth + 1;
        } else if ch == ')' {
          depth := depth - 1;
          if depth == 0 {
            break;
          }
        } else if ch == ',' && depth == 1 && arg1End == -1 {
          arg1End := i;
        }
      }
      q := Step(q, ch);
      i := i + 1;
    }
    if depth != 0 {
      return None;
    }
    var args := s[start..i];
    return Some((i + 1, args, if arg1End == -1 then args else s[start..arg1End]));
  }

  // ---------------------------------------------------------------- rewriting

  function Renamed(f: Func): Option<Suffix> {
    match f
    case Pressure => Some(Pa)
    case Distance => Some(M)
    case Speed => Some(Mps)
    case _ => None
  }

  predicate IsRenamed(c: Call, campB: string -> bool) {
    campB(Arg1(c)) && Renamed(c.func).Some? && c.suffix == Bare
  }

  predicate IsStripped(c: Call) {
    Arg1(c) != c.args
  }

  /** The call that is written in the place of `c`. */
  function Target(c: Call, campB: string -> bool): Call {
    Call(c.func, if IsRenamed(c, campB) then Renamed(c.func).value else c.suffix, RStrip(Arg1(c)))
  }

  /** Whether a word character stands right before `i`. */
  predicate WordBefore(s: string, i: nat)
    requires i <= |s|
  {
    i > 0 && IsWord(s[i - 1])
  }

  /** `CALL_RE.finditer`: where the matches start, from `i` on. */
  function Finds(s: string, i: nat): seq<nat>
    requires i <= |s|
    decreases |s| - i
  {
    if i == |s| then []
    else if HeadAt(WordBefore(s, i), s[i..]) == None then Finds(s, i + 1)
    else
      var next := i + ParenAt(s[i..]) + 1;
      assert ParenAt(s[i..]) < |s[i..]|;
      [i] + Finds(s, next)
  }

  lemma HeadParen(w: bool, s: string)
    ensures HeadAt(w, s).Some? ==> ParenAt(s) < |s|
  {
  }

  predicate FoundIn(s: string, ms: seq<nat>) {
    forall k :: 0 <= k < |ms| ==> ms[k] < |s| && HeadAt(WordBefore(s, ms[k]), s[ms[k]..]).Some?
  }

  lemma {:induction false} FindsFound(s: string, i: nat)
    requires i <= |s|
    ensures FoundIn(s, Finds(s, i))
    decreases |s| - i
  {
    hide HeadAt;
    if i < |s| {
      if HeadAt(WordBefore(s, i), s[i..]) == None {
        FindsFound(s, i + 1);
      } else {
        HeadParen(WordBefore(s, i), s[i..]);
        FindsFound(s, i + ParenAt(s[i..]) + 1);
      }
    }
  }

  function CallIn(s: string, i: nat): Option<Call>
    requires i <= |s|
  {
    CallAt(WordBefore(s, i), s[i..])
  }

  /** A slice as Python takes it: empty when the ends are crossed. */
  function Slice(s: string, a: nat, b: nat): string
    requires a <= |s| && b <= |s|
  {
    if a <= b then s[a..b] else ""
  }

  /** What the loop has written after the matches `ms`, and how far it has read. */
  function Written(s: string, ms: seq<nat>, campB: string -> bool): (string, int)
    requires FoundIn(s, ms)
    ensures 0 <= Written(s, ms, campB).1 <= |s|
  {
    if ms == [] then ("", 0)
    else
      var m := ms[|ms| - 1];
      var (out, lastEnd) := Written(s, ms[..|ms| - 1], campB);
      match CallIn(s, m)
      case None => (out, lastEnd)
      case Some(c) =>
        SourceThere(s, m);
        (out + Slice(s, lastEnd, m) + Source(Target(c, campB)), m + |Source(c)|)
  }

  /** The source of a call found at `i` stands there. */
  lemma SourceThere(s: string, i: nat)
    requires i <= |s| && CallIn(s, i).Some?
    ensures i + |Source(CallIn(s, i).value)| <= |s|
    ensures HasSource(s[i..], CallIn(s, i).value)
  {
    SourcePrefix(WordBefore(s, i), s[i..]);
  }

  predicate HasSource(s: string, c: Call) {
    Source(c) <= s
  }

  lemma LookupName(name: string)
    requires Lookup(name).Some?
    ensures var (f, x) := Lookup(name).value; name == CallName(f, x)
  {
  }

  lemma SplitAt(s: string, n: nat, k: nat)
    requires n < |s| && s[n] == '(' && k < |s[n + 1..]| && s[n + 1..][k] == ')'
    ensures s[..n] + "(" + s[n + 1..][..k] + ")" <= s
  {
    var t := s[n + 1..];
    assert t == t[..k] + ")" + t[k + 1..];
    assert s == s[..n] + "(" + t;
    assert s == (s[..n] + "(" + t[..k] + ")") + t[k + 1..];
  }

  lemma SourcePrefix(w: bool, s: string)
    requires CallAt(w, s).Some?
    ensures HasSource(s, CallAt(w, s).value)
    ensures |Source(CallAt(w, s).value)| > 1
    ensures CallAt(w, s).value.args == s[ParenAt(s) + 1..][..CloseAt(s[ParenAt(s) + 1..], OPENED).value]
  {
    hide Lookup, CallName, CloseAt;
    var n := ParenAt(s);
    var k := CloseAt(s[n + 1..], OPENED).value;
    LookupName(s[..n]);
    SplitAt(s, n, k);
  }

  /** The calls behind the matches, in order. */
  function Closed(s: string, ms: seq<nat>): seq<Call>
    requires FoundIn(s, ms)
  {
    if ms == [] then []
    else
      var m := ms[|ms| - 1];
      Closed(s, ms[..|ms| - 1]) + match CallIn(s, m) case None => [] case Some(c) => [c]
  }

  function Tally(cs: seq<Call>, p: Call -> bool): nat {
    if cs == [] then 0 else Tally(cs[..|cs| - 1], p) + if p(cs[|cs| - 1]) then 1 else 0
  }

  datatype Counts = Counts(campBRenamed: nat, stripped2ndArg: nat, untouched: nat)

  function CountsOf(cs: seq<Call>, campB: string -> bool): Counts {
    Counts(
      Tally(cs, c => IsRenamed(c, campB)), Tally(cs, IsStripped),
      Tally(cs, c => !IsRenamed(c, campB) && !IsStripped(c)))
  }

  /** The text `transform_sql` returns. */
  function Transformed(s: string, campB: string -> bool): string {
    FindsFound(s, 0);
    var (out, lastEnd) := Written(s, Finds(s, 0), campB);
    out + s[lastEnd..]
  }

  function AllClosed(s: string): seq<Call> {
    FindsFound(s, 0);
    Closed(s, Finds(s, 0))
  }

  function Plus(n: Counts, c: Call, campB: string -> bool): Counts {
    Counts(
      n.campBRenamed + if IsRenamed(c, campB) then 1 else 0,
      n.stripped2ndArg + if IsStripped(c) then 1 else 0,
      n.untouched + if IsRenamed(c, campB) || IsStripped(c) then 0 else 1)
  }

  /** What one more match does. */
  lemma MatchStep(s: string, ms: seq<nat>, j: nat, campB: string -> bool)
    requires j < |ms| && FoundIn(s, ms)
    ensures FoundIn(s, ms[..j]) && FoundIn(s, ms[..j + 1]) && CallIn.requires(s, ms[j])
    ensures var w, next := Written(s, ms[..j], campB), Written(s, ms[..j + 1], campB);
      match CallIn(s, ms[j])
      case None => next == w
      case Some(c) =>
        next == (w.0 + Slice(s, w.1, ms[j]) + Source(Target(c, campB)), ms[j] + |Source(c)|)
    ensures var n, next := CountsOf(Closed(s, ms[..j]), campB), CountsOf(Closed(s, ms[..j + 1]), campB);
      next == match CallIn(s, ms[j]) case None => n case Some(c) => Plus(n, c, campB)
  {
    hide CallIn, Source, Target, HeadAt, IsRenamed, IsStripped;
    assert ms[..j + 1][..j] == ms[..j];
    var before := Closed(s, ms[..j]);
    match CallIn(s, ms[j]) {
      case None => assert before + [] == before;
      case Some(c) => assert (before + [c])[..|before|] == before;
    }
  }

  /** `transform_sql` */
  method TransformSql(content: string, campB: string -> bool) returns (r: string, counts: Counts)
    ensures r == Transformed(content, campB)
    ensures counts == CountsOf(AllClosed(content), campB)
  {
    hide Split, HeadAt, CallIn, Source, Written, Closed, CountsOf, Arg1;
    var ms := Finds(content, 0);
    FindsFound(content, 0);
    var out := "";
    var lastEnd := 0;
    counts := Counts(0, 0, 0);
    NothingYet(content, campB);
    for j := 0 to |ms|
      invariant 0 <= lastEnd <= |content|
      invariant FoundIn(content, ms[..j]) && (out, lastEnd) == Written(content, ms[..j], campB)
      invariant counts == CountsOf(Closed(content, ms[..j]), campB)
    {
      var m := ms[j];
      var (func, suffix) := HeadAt(WordBefore(content, m), content[m..]).value;
      var parenOpen := m + ParenAt(content[m..]);
      MatchStep(content, ms, j, campB);
      SplitIsCall(content, m);
      var parts := SplitCall(content, parenOpen);
      if parts.Some? {
        var (after, args, arg1) := parts.value;
        ghost var c := CallIn(content, m).value;
        FirstIsWhole(c);
        var newSuffix := suffix;
        var changed := false;
        if campB(arg1) && Renamed(func).Some? && suffix == Bare {
          newSuffix := Renamed(func).value;
          counts := counts.(campBRenamed := counts.campBRenamed + 1);
          changed := true;
        }
        if |args| != |arg1| {
          counts := counts.(stripped2ndArg := counts.stripped2ndArg + 1);
          changed := true;
        }
        if !changed {
          counts := counts.(untouched := counts.untouched + 1);
        }
        out := out + Slice(content, lastEnd, m) + Source(Call(func, newSuffix, RStrip(arg1)));
        lastEnd := after;
      }
    }
    assert ms[..|ms|] == ms;
    out := out + content[lastEnd..];
    return out, counts;
  }

  lemma NothingYet(s: string, campB: string -> bool)
    ensures Written(s, [], campB) == ("", 0) && CountsOf(Closed(s, []), campB) == Counts(0, 0, 0)
  {
  }

  lemma FirstIsWhole(c: Call)
    ensures |Arg1(c)| == |c.args| <==> Arg1(c) == c.args
  {
  }

  /** What the splitter finds behind a match is the call the specification speaks of. */
  lemma SplitIsCall(s: string, i: nat)
    requires i < |s| && HeadAt(WordBefore(s, i), s[i..]).Some?
    ensures var open := i + ParenAt(s[i..]);
      && open < |s| && s[open] == '('
      && match CallIn(s, i)
         case None => Split(s, open) == None
         case Some(c) =>
           (Split(s, open) == Some((i + |Source(c)|, c.args, Arg1(c)))
            && HeadAt(WordBefore(s, i), s[i..]) == Some((c.func, c.suffix)))
  {
    hide CloseAt, CommaAt, Lookup, CallName, ParenAt;
    var n := ParenAt(s[i..]);
    HeadParen(WordBefore(s, i), s[i..]);
    assert s[i..][n + 1..] == s[i + n + 1..];
    LookupName(s[i..][..n]);
  }
}
