/**
 The catalogue parser of cmd/slogen/main.go: a line parser for a strict YAML
 subset, driven by three flags, with its own comment stripper and unquoter, and
 the validator behind it.
*/
module Catalog {
  import opened Wrappers
  import opened Strconv
  import opened GoStrings

  // ---------------------------------------------------------------- model

  /** A decimal number kept exactly: sign, whole part, digits after the point. */
  datatype Decimal = Decimal(negative: bool, whole: nat, frac: string)

  datatype Sli = Sli(good: string, valid: string)

  /** `line` is the number of the line the item starts on. */
  datatype Slo = Slo(
    name: string, description: string, sli: Sli, objective: Decimal,
    window: string, owner: string, tags: seq<string>, line: nat)

  datatype Cat = Cat(version: int, slos: seq<Slo>)

  datatype Fault =
    | VersionMissing | VersionEmpty | VersionNotInt | SlosInline | UnknownTop | OutsideSlos
    | ItemStart | FieldBeforeItem | NestedOutsideSli | UnknownSliField | BadIndent
    | SliInline | ObjectiveNotNumber | TagsNotArray | UnknownField

  datatype ParseError = ParseError(fault: Fault, line: nat)

  // ---------------------------------------------------------------- scalars

  /** How the comment stripper's quote flag stands after the character at `i`. */
  predicate Toggled(line: string, i: nat, inQuote: bool)
    requires i < |line|
  {
    if line[i] == '"' && (i == 0 || line[i - 1] != '\\') then !inQuote else inQuote
  }

  /** What is kept of `line` from `i` on, entered with the given quote flag. */
  function Kept(line: string, i: nat, inQuote: bool): string
    requires i <= |line|
    decreases |line| - i
  {
    if i == |line| then ""
    else
      var q := Toggled(line, i, inQuote);
      if line[i] == '#' && !q then "" else [line[i]] + Kept(line, i + 1, q)
  }

  predicate IsTrailing(c: char) {
    c == ' ' || c == '\t' || c == '\r'
  }

  function StripComment(line: string): string {
    TrimRight(Kept(line, 0, false), IsTrailing)
  }

  lemma KeptNext(line: string, i: nat, q: bool)
    requires i < |line|
    ensures var next := Toggled(line, i, q);
      Kept(line, i, q) == if line[i] == '#' && !next then "" else [line[i]] + Kept(line, i + 1, next)
  {
  }

  lemma KeptEnd(line: string)
    ensures forall q :: Kept(line, |line|, q) == ""
  {
  }

  method StripCommentLoop(line: string) returns (r: string)
    ensures r == StripComment(line)
  {
    hide Kept;
    KeptEnd(line);
    var out := "";
    var inQuote := false;
    var i := 0;
    while i < |line|
      invariant i <= |line|
      invariant out + Kept(line, i, inQuote) == Kept(line, 0, false)
    {
      KeptNext(line, i, inQuote);
      var ch := line[i];
      if ch == '"' && (i == 0 || line[i - 1] != '\\') {
        inQuote := !inQuote;
      }
      if ch == '#' && !inQuote {
        break;
      }
      assert out + ([ch] + Kept(line, i + 1, inQuote)) == out + [ch] + Kept(line, i + 1, inQuote);
      out := out + [ch];
      i := i + 1;
    }
    assert out + "" == out;
    return TrimRight(out, IsTrailing);
  }

  /** The character a one-letter escape stands for inside double quotes. */
  function Escape(c: char): Option<char> {
    match c
    case 'a' => Some(7 as char)
    case 'b' => Some(8 as char)
    case 'f' => Some(12 as char)
    case 'n' => Some('\n')
    case 'r' => Some('\r')
    case 't' => Some('\t')
    case 'v' => Some(11 as char)
    case '\\' => Some('\\')
    case '"' => Some('"')
    case _ => None
  }

  /** `strconv.Unquote` after the opening double quote: up to a closing quote
      that must be the last character. */
  function Unescape(s: string): Option<string> {
    if s == "" || s[0] == '\n' then None
    else if s[0] == '"' then if |s| == 1 then Some("") else None
    else if s[0] == '\\' then
      if |s| < 2 || Escape(s[1]) == None then None
      else
        (match Unescape(s[2..])
         case None => None
         case Some(r) => Some([Escape(s[1]).value] + r))
    else match Unescape(s[1..])
      case None => None
      case Some(r) => Some([s[0]] + r)
  }

  predicate Enclosed(v: string, quote: char) {
    |v| >= 2 && v[0] == quote && v[|v| - 1] == quote
  }

  function Unquote(v: string): string {
    if Enclosed(v, '"') && Unescape(v[1..]).Some? then Unescape(v[1..]).value
    else if Enclosed(v, '\'') then v[1..|v| - 1]
    else v
  }

  /** `quoteScalar` of cmd/slogen/generate.go. */
  function Escaped(s: string): string {
    if s == "" then ""
    else (if s[0] == '\\' then "\\\\" else if s[0] == '"' then "\\\"" else [s[0]]) + Escaped(s[1..])
  }

  function Quoted(s: string): string {
    "\"" + Escaped(s) + "\""
  }

  method QuoteScalar(s: string) returns (r: string)
    ensures r == Quoted(s)
  {
    var b := "\"";
    for i := 0 to |s|
      invariant b + Escaped(s[i..]) == "\"" + Escaped(s)
    {
      var ch := s[i];
      assert s[i..][0] == ch && s[i..][1..] == s[i + 1..];
      var piece := if ch == '\\' then "\\\\" else if ch == '"' then "\\\"" else [ch];
      assert b + (piece + Escaped(s[i + 1..])) == b + piece + Escaped(s[i + 1..]);
      b := b + piece;
    }
    assert s[|s|..] == "";
    assert b + "" == b;
    return b + "\"";
  }

  function Unquoted(parts: seq<string>): (r: seq<string>)
    ensures |r| == |parts|
  {
    seq(|parts|, i requires 0 <= i < |parts| => Unquote(TrimSpace(parts[i])))
  }

  /** `parseInlineArray`; nothing stands for its error. */
  function InlineArray(v: string): Option<seq<string>> {
    var t := TrimSpace(v);
    if t == "" then Some([])
    else if t[0] != '[' || t[|t| - 1] != ']' then None
    else
      var body := TrimSpace(t[1..|t| - 1]);
      if body == "" then Some([]) else Some(Unquoted(Split(body, ',')))
  }

  method ParseInlineArray(v: string) returns (r: Option<seq<string>>)
    ensures r == InlineArray(v)
  {
    var t := TrimSpace(v);
    if t == "" {
      return Some([]);
    }
    if t[0] != '[' || t[|t| - 1] != ']' {
      return None;
    }
    assert |t| > 1;
    var body := TrimSpace(t[1..|t| - 1]);
    if body == "" {
      return Some([]);
    }
    var parts := Split(body, ',');
    var out: seq<string> := [];
    for i := 0 to |parts|
      invariant out == Unquoted(parts)[..i]
    {
      out := out + [Unquote(TrimSpace(parts[i]))];
    }
    assert out == Unquoted(parts);
    return Some(out);
  }

  /** `ParseFloat` on plain decimals: a sign, digits, and a point with digits. */
  function ParseDecimal(s: string): Option<Decimal> {
    var signed := s != "" && (s[0] == '+' || s[0] == '-');
    var t := if signed then s[1..] else s;
    var whole, frac := Before(t, '.'), Behind(t, '.');
    if whole + frac == "" || !AllDigits(whole) || !AllDigits(frac) then None
    else Some(Decimal(signed && s[0] == '-', DigitsValue(whole), frac))
  }

  // ---------------------------------------------------------------- the line parser

  /** The variables of the loop of `parseCatalog`. */
  datatype State = State(
    version: int, slos: seq<Slo>, versionSeen: bool, inSLOs: bool, current: Option<Slo>, inSLI: bool)

  const START := State(0, [], false, false, None, false)

  function NewSlo(name: string, line: nat): Slo {
    Slo(name, "", Sli("", ""), Decimal(false, 0, ""), "", "", [], line)
  }

  /** A line without leading blank: a top-level key. */
  function TopLine(st: State, line: string): Result<State, Fault> {
    var head, val := TrimSpace(Before(line, ':')), TrimSpace(Behind(line, ':'));
    if head == "version" then
      if val == "" then Err(VersionEmpty)
      else match Atoi(val)
        case None => Err(VersionNotInt)
        case Some(v) => Ok(st.(version := v, versionSeen := true, inSLOs := false, current := None))
    else if head == "slos" then
      if val != "" then Err(SlosInline) else Ok(st.(inSLOs := true, current := None))
    else Err(UnknownTop)
  }

  /** `  - name: value` */
  function ItemLine(st: State, line: string, n: nat): Result<State, Fault>
    requires |line| >= 4
  {
    var rest := line[4..];
    if TrimSpace(Before(rest, ':')) != "name" then Err(ItemStart)
    else
      var slos := if st.current.Some? then st.slos + [st.current.value] else st.slos;
      Ok(st.(slos := slos, current := Some(NewSlo(Unquote(TrimSpace(Behind(rest, ':'))), n)), inSLI := false))
  }

  /** A line indented by six: a part of `sli:`. */
  function SliLine(st: State, cur: Slo, line: string): Result<State, Fault>
    requires |line| >= 6
  {
    var rest := line[6..];
    var head, val := TrimSpace(Before(rest, ':')), Unquote(TrimSpace(Behind(rest, ':')));
    if !st.inSLI then Err(NestedOutsideSli)
    else if head == "good_events" then Ok(st.(current := Some(cur.(sli := cur.sli.(good := val)))))
    else if head == "valid_events" then Ok(st.(current := Some(cur.(sli := cur.sli.(valid := val)))))
    else Err(UnknownSliField)
  }

  /** A line indented by four: a field of the current item. */
  function FieldLine(st: State, cur: Slo, line: string): Result<State, Fault>
    requires |line| >= 4
  {
    var rest := line[4..];
    var head, val := TrimSpace(Before(rest, ':')), TrimSpace(Behind(rest, ':'));
    if head == "description" then Ok(st.(current := Some(cur.(description := Unquote(val))), inSLI := false))
    else if head == "sli" then if val != "" then Err(SliInline) else Ok(st.(inSLI := true))
    else if head == "objective" then
      match ParseDecimal(val)
      case None => Err(ObjectiveNotNumber)
      case Some(d) => Ok(st.(current := Some(cur.(objective := d)), inSLI := false))
    else if head == "window" then Ok(st.(current := Some(cur.(window := Unquote(val))), inSLI := false))
    else if head == "owner" then Ok(st.(current := Some(cur.(owner := Unquote(val))), inSLI := false))
    else if head == "tags" then
      match InlineArray(val)
      case None => Err(TagsNotArray)
      case Some(tags) => Ok(st.(current := Some(cur.(tags := tags)), inSLI := false))
    else Err(UnknownField)
  }

  /** One turn of the loop, on raw line number `n`. */
  function OneLine(st: State, raw: string, n: nat): Result<State, Fault> {
    var line := StripComment(raw);
    if TrimSpace(line) == "" then Ok(st)
    else if !HasPrefix(line, " ") then TopLine(st, line)
    else if !st.inSLOs then Err(OutsideSlos)
    else if HasPrefix(line, "  - ") then ItemLine(st, line, n)
    else if st.current == None then Err(FieldBeforeItem)
    else if HasPrefix(line, "      ") then SliLine(st, st.current.value, line)
    else if !HasPrefix(line, "    ") then Err(BadIndent)
    else FieldLine(st, st.current.value, line)
  }

  /** The loop over the first lines of the text. */
  function AllLines(lines: seq<string>): Result<State, ParseError> {
    if lines == [] then Ok(START)
    else
      var k := |lines| - 1;
      match AllLines(lines[..k])
      case Err(e) => Err(e)
      case Ok(st) =>
        match OneLine(st, lines[k], k + 1)
        case Err(f) => Err(ParseError(f, k + 1))
        case Ok(st') => Ok(st')
  }

  function Finish(st: State, lines: nat): Result<Cat, ParseError> {
    var slos := if st.current.Some? then st.slos + [st.current.value] else st.slos;
    if !st.versionSeen then Err(ParseError(VersionMissing, lines)) else Ok(Cat(st.version, slos))
  }

  /** What a catalogue text means. */
  function Parse(text: string): Result<Cat, ParseError> {
    var lines := Lines(text);
    match AllLines(lines)
    case Err(e) => Err(e)
    case Ok(st) => Finish(st, |lines|)
  }

  // ---------------------------------------------------------------- the loop

  lemma {:induction false} ErrorStays(lines: seq<string>, k: nat)
    requires k <= |lines| && AllLines(lines[..k]).Err?
    ensures AllLines(lines) == AllLines(lines[..k])
    decreases |lines| - k
  {
    if k == |lines| {
      assert lines[..k] == lines;
    } else {
      assert lines[..k + 1][..k] == lines[..k];
      ErrorStays(lines, k + 1);
    }
  }

  /** The switch over the fields of an item. */
  method ReadField(st: State, line: string) returns (r: Result<State, Fault>)
    requires |line| >= 4 && st.current.Some?
    ensures r == FieldLine(st, st.current.value, line)
  {
    hide TrimSpace, Unquote, ParseDecimal, InlineArray, Before, Behind;
    var rest := line[4..];
    var head, val := TrimSpace(Before(rest, ':')), TrimSpace(Behind(rest, ':'));
    var current, inSLI := st.current.value, false;
    match head {
    case "description" => current := current.(description := Unquote(val));
    case "sli" =>
      if val != "" {
        return Err(SliInline);
      }
      inSLI := true;
    case "objective" =>
      var f := ParseDecimal(val);
      if f == None {
        return Err(ObjectiveNotNumber);
      }
      current := current.(objective := f.value);
    case "window" => current := current.(window := Unquote(val));
    case "owner" => current := current.(owner := Unquote(val));
    case "tags" =>
      var tags := ParseInlineArray(val);
      if tags == None {
        return Err(TagsNotArray);
      }
      current := current.(tags := tags.value);
    case _ => return Err(UnknownField);
    }
    return Ok(st.(current := Some(current), inSLI := inSLI));
  }

  /** One turn of the loop of `parseCatalog`: its variables before and after. */
  method ReadLine(st: State, raw: string, lineNum: nat) returns (r: Result<State, Fault>)
    ensures r == OneLine(st, raw, lineNum)
  {
    hide TrimSpace, Unquote, Before, Behind, StripComment, FieldLine, Atoi;
    var line := StripCommentLoop(raw);
    if TrimSpace(line) == "" {
      return Ok(st);
    }
    if !HasPrefix(line, " ") {
      var head, val := TrimSpace(Before(line, ':')), TrimSpace(Behind(line, ':'));
      match head {
      case "version" =>
        if val == "" {
          return Err(VersionEmpty);
        }
        var v := Atoi(val);
        if v == None {
          return Err(VersionNotInt);
        }
        return Ok(st.(version := v.value, versionSeen := true, inSLOs := false, current := None));
      case "slos" =>
        if val != "" {
          return Err(SlosInline);
        }
        return Ok(st.(inSLOs := true, current := None));
      case _ => return Err(UnknownTop);
      }
    }
    if !st.inSLOs {
      return Err(OutsideSlos);
    }
    if HasPrefix(line, "  - ") {
      var rest := line[4..];
      if TrimSpace(Before(rest, ':')) != "name" {
        return Err(ItemStart);
      }
      var slos := st.slos;
      if st.current.Some? {
        slos := slos + [st.current.value];
      }
      var item := NewSlo(Unquote(TrimSpace(Behind(rest, ':'))), lineNum);
      return Ok(st.(slos := slos, current := Some(item), inSLI := false));
    }
    if st.current == None {
      return Err(FieldBeforeItem);
    }
    if HasPrefix(line, "      ") {
      if !st.inSLI {
        return Err(NestedOutsideSli);
      }
      var rest, cur := line[6..], st.current.value;
      var head, val := TrimSpace(Before(rest, ':')), Unquote(TrimSpace(Behind(rest, ':')));
      match head {
      case "good_events" => cur := cur.(sli := cur.sli.(good := val));
      case "valid_events" => cur := cur.(sli := cur.sli.(valid := val));
      case _ => return Err(UnknownSliField);
      }
      return Ok(st.(current := Some(cur)));
    }
    if !HasPrefix(line, "    ") {
      return Err(BadIndent);
    }
    r := ReadField(st, line);
  }

  /** `parseCatalog`. The error for a missing version carries no line in the
      original; here it carries the number of lines read. */
  method ParseCatalog(text: string) returns (r: Result<Cat, ParseError>)
    ensures r == Parse(text)
  {
    hide OneLine;
    var lines := Lines(text);
    var st := START;
    var lineNum := 0;
    while lineNum < |lines|
      invariant lineNum <= |lines|
      invariant AllLines(lines[..lineNum]) == Ok(st)
    {
      var raw := lines[lineNum];
      lineNum := lineNum + 1;
      assert lines[..lineNum][..lineNum - 1] == lines[..lineNum - 1];
      var next := ReadLine(st, raw, lineNum);
      if next.Err? {
        ErrorStays(lines, lineNum);
        return Err(ParseError(next.error, lineNum));
      }
      st := next.value;
    }
    assert lines[..lineNum] == lines;
    if st.current.Some? {
      st := st.(slos := st.slos + [st.current.value]);
    }
    if !st.versionSeen {
      return Err(ParseError(VersionMissing, lineNum));
    }
    return Ok(Cat(st.version, st.slos));
  }
}
