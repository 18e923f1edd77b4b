/**
 A second run of scripts/fix_grafana_infra_links.py: when it finds the block the first
 run wrote, and when it writes the same text again.
*/
module LinksSecondRun {
  import opened Wrappers
  import opened PyStrings
  import opened LinksSpan

  // ---------------------------------------------------------------- where the block is

  predicate NoNeedle(s: string) {
    Find(s, Needle(), 0) == None
  }

  /** Where the block stands in the written text. */
  function BlockStart(norm: string): nat {
    match Span(norm)
    case Some((start, _)) => start
    case None => match BodyOf(norm) case None => 0 case Some(body) => |body| + 2
  }

  lemma OccursIn(a: string, b: string, t: string, k: nat)
    requires a <= b && OccursAt(a, t, k)
    ensures OccursAt(b, t, k)
  {
    assert b[k..k + |t|] == a[k..k + |t|];
  }

  lemma SpanStart(text: string)
    ensures Span(text).Some? ==>
      var start := Span(text).value.0;
      start > 0 && text[start - 1] == '\n' && Find(text, Needle(), 0) == Some(start - 1)
  {
    hide ArrayEnd, Find;
    var r := Find(text, Needle(), 0);
    if r.Some? {
      NeedleShape();
      OccursChars(text, Needle(), r.value);
    }
  }

  lemma {:induction false} StripNewlinesRest(s: string, k: nat)
    requires |RStripNewlines(s)| <= k < |s|
    ensures s[k] == '\n'
    decreases |s|
  {
    if s != "" && s[|s| - 1] == '\n' && k < |s| - 1 {
      StripNewlinesRest(s[..|s| - 1], k);
    }
  }

  /** Behind the body there is only blank and the closing brace. */
  lemma BodyTail(norm: string, k: nat)
    requires BodyOf(norm).Some? && |BodyOf(norm).value| <= k < |norm|
    ensures BodyOf(norm).value <= norm && norm[k] != ':'
  {
    hide RStrip, RStripNewlines, EndsValue;
    var stripped := RStripNewlines(norm);
    var n := |stripped| - 1;
    assert stripped[n..] == "}";
    assert stripped[n] == stripped[n..][0];
    if k < n {
      StripRest(stripped[..n], k);
    } else if k > n {
      StripNewlinesRest(norm, k);
    }
  }

  lemma BodyPrefix(norm: string)
    requires BodyOf(norm).Some?
    ensures BodyOf(norm).value <= norm
  {
  }

  /** The replaced text: what stood before and behind the old array, and the block. */
  lemma ReplacedIs(norm: string, block: string)
    requires Span(norm).Some?
    ensures Threaded(norm, block).Some?
    ensures var (start, end) := Span(norm).value; var out := Threaded(norm, block).value;
      && start + |block| <= |out| && out[..start] == norm[..start] && out[start..start + |block|] == block
      && norm[end..] <= out[start + |block|..] && |out| <= start + |block| + |norm[end..]| + 1
      && EndLine(out) == out
  {
    hide Span;
    var (start, end) := Span(norm).value;
    var x := norm[..start] + block + norm[end..];
    var out := Threaded(norm, block).value;
    assert out == x || out == x + "\n";
    assert x[start + |block|..] == norm[end..];
    EndLineTwice(x);
  }

  lemma EndLineTwice(x: string)
    ensures EndLine(EndLine(x)) == EndLine(x)
  {
    assert (x + "\n")[|x|..] == "\n";
  }

  /** The extended text: the body, then a comma, then the block. */
  lemma InsertedIs(norm: string, block: string)
    requires Span(norm) == None && BodyOf(norm).Some?
    ensures Threaded(norm, block) == Some(BodyOf(norm).value + "," + "\n" + block + "\n}\n")
  {
    hide Span, BodyOf;
    var body := BodyOf(norm).value;
    var x := body + ",\n" + block + "\n}";
    assert x[|x| - 1..] == "}";
    assert x + "\n" == body + "," + "\n" + block + "\n}\n";
  }

  lemma ReplacedFound(norm: string, prev: Entry, next: Entry)
    requires PlainUid(prev.uid) && PlainUid(next.uid) && Span(norm).Some?
    ensures var start := Span(norm).value.0; var block := Block(prev, next);
      Span(Threaded(norm, block).value) == Some((start, start + |block|))
  {
    hide Span, Threaded, Block, Find, OccursAt;
    var start, block := Span(norm).value.0, Block(prev, next);
    ReplacedIs(norm, block);
    var out := Threaded(norm, block).value;
    SpanStart(norm);
    var pre := norm[..start - 1];
    forall k: nat ensures !OccursAt(pre, Needle(), k) {
      if OccursAt(pre, Needle(), k) {
        OccursIn(pre, norm, Needle(), k);
        OccursBound(pre, Needle(), k);
      }
    }
    BlockFound(pre, prev, next, out[start + |block|..]);
    assert out == out[..start] + out[start..start + |block|] + out[start + |block|..];
    assert norm[..start] == pre + "\n";
  }

  lemma OccursBound(s: string, t: string, k: nat)
    requires OccursAt(s, t, k)
    ensures k + |t| <= |s|
  {
  }

  lemma NeedleInBody(norm: string, k: nat)
    requires BodyOf(norm).Some? && OccursAt(BodyOf(norm).value + ",", Needle(), k)
    ensures OccursAt(norm, Needle(), k)
  {
    hide BodyOf, Needle, OccursAt;
    NeedleShape();
    BodyPrefix(norm);
    var pre := BodyOf(norm).value + ",";
    OccursChars(pre, Needle(), k);
    OccursChars(norm, Needle(), k);
    assert pre[k + 10] == ':' && pre[|pre| - 1] == ',';
    assert k + 10 < |pre| - 1;
  }

  lemma NoNeedleBody(norm: string, k: nat)
    requires NoNeedle(norm) && BodyOf(norm).Some?
    ensures !OccursAt(BodyOf(norm).value + ",", Needle(), k)
  {
    hide BodyOf, Needle, OccursAt, Find;
    if OccursAt(BodyOf(norm).value + ",", Needle(), k) {
      NeedleInBody(norm, k);
      OccursBound(norm, Needle(), k);
    }
  }

  lemma InsertedFound(norm: string, prev: Entry, next: Entry)
    requires PlainUid(prev.uid) && PlainUid(next.uid) && NoNeedle(norm) && BodyOf(norm).Some?
    ensures var start, block := |BodyOf(norm).value| + 2, Block(prev, next);
      Span(norm) == None && Span(Threaded(norm, block).value) == Some((start, start + |block|))
  {
    hide Threaded, Block, Find, OccursAt, BodyOf;
    InsertedIs(norm, Block(prev, next));
    var pre := BodyOf(norm).value + ",";
    forall k: nat ensures !OccursAt(pre, Needle(), k) {
      NoNeedleBody(norm, k);
    }
    BlockFound(pre, prev, next, "\n}\n");
  }

  /** A key that no array follows is met again where it was. */
  lemma OldKeyThere(norm: string, block: string)
    requires !NoNeedle(norm) && Span(norm) == None && BodyOf(norm).Some?
    ensures Threaded(norm, block).Some? && Find(Threaded(norm, block).value, Needle(), 0) == Find(norm, Needle(), 0)
    ensures Find(norm, Needle(), 0).value < |BodyOf(norm).value|
  {
    hide Threaded, Find, OccursAt, BodyOf, Needle, Span;
    var idx := Find(norm, Needle(), 0).value;
    var body := BodyOf(norm).value;
    NeedleShape();
    InsertedIs(norm, block);
    var out := Threaded(norm, block).value;
    OccursChars(norm, Needle(), idx);
    assert norm[idx + 10] == ':';
    if idx + 10 >= |body| {
      BodyTail(norm, idx + 10);
    }
    BodyPrefix(norm);
    assert body <= out;
    OccursChars(out, Needle(), idx);
    assert OccursAt(out, Needle(), idx);
    forall k: nat | k < idx ensures !OccursAt(out, Needle(), k) {
      OccursChars(out, Needle(), k);
      OccursChars(norm, Needle(), k);
    }
  }

  /** After a run the search finds exactly the block just written, unless the text had
      a links key and no array could be found for it. */
  lemma BlockFoundIff(norm: string, prev: Entry, next: Entry)
    requires PlainUid(prev.uid) && PlainUid(next.uid) && Threaded(norm, Block(prev, next)).Some?
    ensures var start, block := BlockStart(norm), Block(prev, next); var out := Threaded(norm, block).value;
      && start + |block| <= |out| && out[start..start + |block|] == block
      && (Span(out) == Some((start, start + |block|)) <==> Span(norm).Some? || NoNeedle(norm))
  {
    hide Threaded, Block, Find, BodyOf, Span, NoNeedle;
    var block := Block(prev, next);
    ThreadedParts(norm, block);
    if Span(norm).Some? {
      ReplacedFound(norm, prev, next);
      ReplacedIs(norm, block);
    } else {
      InsertedIs(norm, block);
      var body := BodyOf(norm).value;
      BlockThere(body + "," + "\n", block, "\n}\n");
      if NoNeedle(norm) {
        InsertedFound(norm, prev, next);
      } else {
        OldKeyThere(norm, block);
        SpanStart(Threaded(norm, block).value);
      }
    }
  }

  lemma BlockThere(a: string, block: string, b: string)
    ensures (a + block + b)[|a|..|a| + |block|] == block
  {
  }

  lemma ThreadedParts(norm: string, block: string)
    requires Threaded(norm, block).Some?
    ensures Span(norm) == None ==> BodyOf(norm).Some?
  {
  }

  // ---------------------------------------------------------------- the same text again

  /** Where the block is found a second run writes the same text again. */
  lemma SecondRunSame(norm: string, prev: Entry, next: Entry)
    requires PlainUid(prev.uid) && PlainUid(next.uid) && Threaded(norm, Block(prev, next)).Some?
    requires Span(norm).Some? || NoNeedle(norm)
    ensures var block := Block(prev, next);
      Threaded(Threaded(norm, block).value, block) == Threaded(norm, block)
  {
    hide Block, Find, BodyOf, Span, NoNeedle;
    var block := Block(prev, next);
    var start, out := BlockStart(norm), Threaded(norm, block).value;
    BlockFoundIff(norm, prev, next);
    assert out == out[..start] + out[start..start + |block|] + out[start + |block|..];
    ThreadedEnds(norm, block);
  }

  lemma ThreadedEnds(norm: string, block: string)
    requires Threaded(norm, block).Some?
    ensures EndLine(Threaded(norm, block).value) == Threaded(norm, block).value
  {
    hide Span, BodyOf, EndLine;
    match Span(norm)
    case Some((start, end)) => EndLineTwice(norm[..start] + block + norm[end..]);
    case None => EndLineTwice(BodyOf(norm).value + ",\n" + block + "\n}");
  }

  // ---------------------------------------------------------------- another text

  lemma BlockEnds(prev: Entry, next: Entry)
    ensures var b := Block(prev, next); |b| > 12 && b[0] == ' ' && b[2] == '"' && b[|b| - 1] == ']'
    ensures Needle() + " [" <= "\n" + Block(prev, next)
  {
    hide InnerText;
    OpeningShape();
    BlockIs(prev, next);
    assert Opening()[0] == ' ' && Opening()[2] == '"';
    assert "\n" + Block(prev, next) == "\n" + Opening() + (InnerText(prev, next) + "]");
  }

  lemma SameCells(out: string, b: string, a: nat)
    requires a + |b| <= |out| && out[a..a + |b|] == b
    ensures forall k :: 0 <= k < |b| ==> out[a + k] == b[k]
  {
    var t := out[a..a + |b|];
    assert forall k :: 0 <= k < |t| ==> t[k] == out[a + k];
  }

  /** Two copies of a block, the later one behind a comma and a newline, do not overlap. */
  lemma CopiesApart(out: string, b: string, a: nat, start: nat)
    requires Steady(b) && |b| > 3 && b[2] == '"' && b[|b| - 1] == ']'
    requires a < start && start >= 2 && start + |b| <= |out| && out[start - 2] == ',' && out[start - 1] == '\n'
    requires out[a..a + |b|] == b && out[start..start + |b|] == b
    ensures a + |b| <= start - 2
  {
    SameCells(out, b, a);
    SameCells(out, b, start);
    var last := a + |b| - 1;
    assert out[last] == ']';
    assert out[start + 2] == '"';
  }

  /** A block that stands at the first links key is found there. */
  lemma OldBlock(norm: string, prev: Entry, next: Entry, a: nat)
    requires PlainUid(prev.uid) && PlainUid(next.uid)
    requires Find(norm, Needle(), 0) == Some(a - 1) && a > 0 && a + |Block(prev, next)| <= |norm|
    requires norm[a..a + |Block(prev, next)|] == Block(prev, next)
    ensures Span(norm).Some?
  {
    hide Find, Block, Span, PlainUid, OccursAt, Needle;
    var block := Block(prev, next);
    var pre, post := norm[..a - 1], norm[a + |block|..];
    NeedleShape();
    OccursChars(norm, Needle(), a - 1);
    assert norm[a - 1] == '\n';
    forall k: nat ensures !OccursAt(pre, Needle(), k) {
      if OccursAt(pre, Needle(), k) {
        OccursIn(pre, norm, Needle(), k);
        OccursBound(pre, Needle(), k);
      }
    }
    BlockFound(pre, prev, next, post);
    assert norm == pre + "\n" + block + post;
  }

  /** The second run replaces an older key by the block, and that shows. */
  lemma OldKeyChanges(norm: string, prev: Entry, next: Entry)
    requires PlainUid(prev.uid) && PlainUid(next.uid) && BodyOf(norm).Some?
    requires Span(norm) == None && !NoNeedle(norm)
    requires Span(Threaded(norm, Block(prev, next)).value).Some?
    ensures var block := Block(prev, next);
      Threaded(Threaded(norm, block).value, block) != Threaded(norm, block)
  {
    hide Find, Block, Span, PlainUid, Threaded, BodyOf, Steady;
    var block, body := Block(prev, next), BodyOf(norm).value;
    InsertedIs(norm, block);
    var out := Threaded(norm, block).value;
    var a := Span(out).value.0;
    OldKeyThere(norm, block);
    SpanStart(out);
    if Threaded(out, block) == Some(out) {
      ReplacedIs(out, block);
      BlockEnds(prev, next);
      BlockSteady(prev, next);
      BlockThere(body + "," + "\n", block, "\n}\n");
      BeforeBlock(body, block);
      CopiesApart(out, block, a, |body| + 2);
      BodyPrefix(norm);
      SameInBody(norm, body, out, a, block);
      OldBlock(norm, prev, next, a);
    }
  }

  lemma BeforeBlock(body: string, block: string)
    ensures var out := body + "," + "\n" + block + "\n}\n";
      out[|body|] == ',' && out[|body| + 1] == '\n' && body <= out
  {
  }

  lemma SameInBody(norm: string, body: string, out: string, a: nat, block: string)
    requires body <= norm && body <= out && a + |block| <= |body| && out[a..a + |block|] == block
    ensures a + |block| <= |norm| && norm[a..a + |block|] == block
  {
    assert norm[a..a + |block|] == body[a..a + |block|] == out[a..a + |block|];
  }

  /** The second run inserts another block behind the first. */
  lemma InsertedAgain(norm: string, prev: Entry, next: Entry)
    requires BodyOf(norm).Some? && Span(norm) == None
    requires Span(Threaded(norm, Block(prev, next)).value) == None
    ensures var block := Block(prev, next);
      Threaded(Threaded(norm, block).value, block) != Threaded(norm, block)
  {
    hide Block, Span, Threaded, BodyOf;
    var block, body := Block(prev, next), BodyOf(norm).value;
    InsertedIs(norm, block);
    var out := Threaded(norm, block).value;
    if BodyOf(out) == None {
      RefusedThen(out, block);
    } else {
      InsertedIs(out, block);
      BlockEnds(prev, next);
      BodyOfInserted(body + "," + "\n" + block);
    }
  }

  lemma RefusedThen(norm: string, block: string)
    requires Span(norm) == None && BodyOf(norm) == None
    ensures Threaded(norm, block) == None
  {
  }

  /** A value in front of the closing brace is the end of the body. */
  lemma BodyOfInserted(x: string)
    requires EndsValue(x) && !IsSpace(x[|x| - 1])
    ensures BodyOf(x + "\n}\n") == Some(x)
  {
    hide EndsValue;
    var out := x + "\n}\n";
    assert out[..|out| - 1] == x + "\n}";
    assert RStripNewlines(out) == x + "\n}";
    assert RStrip(out) == x + "\n}";
    assert (x + "\n}")[..|x| + 1] == x + "\n" && (x + "\n}")[|x| + 1..] == "}";
    assert (x + "\n")[..|x|] == x;
    assert RStrip(x + "\n") == x;
  }

  /** A second run writes the same text again if and only if an array was found before
      the first or there was no links key. */
  lemma SecondRunIff(norm: string, prev: Entry, next: Entry)
    requires PlainUid(prev.uid) && PlainUid(next.uid) && Threaded(norm, Block(prev, next)).Some?
    ensures var block := Block(prev, next);
      Threaded(Threaded(norm, block).value, block) == Threaded(norm, block) <==> Span(norm).Some? || NoNeedle(norm)
  {
    hide Block, Find, BodyOf, Span, NoNeedle, Threaded, PlainUid;
    var block := Block(prev, next);
    ThreadedParts(norm, block);
    if Span(norm).Some? || NoNeedle(norm) {
      SecondRunSame(norm, prev, next);
    } else if Span(Threaded(norm, block).value).Some? {
      OldKeyChanges(norm, prev, next);
    } else {
      InsertedAgain(norm, prev, next);
    }
  }

  /** The same for the file as read and written, line endings included. */
  lemma SecondFileIff(raw: string, prev: Entry, next: Entry)
    requires PlainUid(prev.uid) && PlainUid(next.uid) && ThreadedFile(raw, prev, next).Some?
    ensures var norm := UniversalNewlines(raw);
      ThreadedFile(ThreadedFile(raw, prev, next).value, prev, next) == ThreadedFile(raw, prev, next) <==>
      Span(norm).Some? || NoNeedle(norm)
  {
    hide Threaded, Block, Span, NoNeedle, PlainUid, UniversalNewlines, Steady;
    var norm := UniversalNewlines(raw);
    UniversalLf(raw);
    BlockSteady(prev, next);
    SteadyLf(Block(prev, next));
    ThreadedLf(norm, Block(prev, next));
    UniversalLf(Threaded(norm, Block(prev, next)).value);
    SecondRunIff(norm, prev, next);
  }

  lemma SteadyLf(t: string)
    requires Steady(t)
    ensures Lf(t)
  {
  }

  // ---------------------------------------------------------------- a file that changes again

  /** The beginning of a dashboard, up to its links key. */
  function Head(): string {
    "{\n  \"uid\": \"a\",\n  \"title\": \"t\","
  }

  function NullBody(): string {
    Head() + Needle() + " null"
  }

  function NullLinks(): string {
    NullBody() + "\n}\n"
  }

  lemma NullLinksParts()
    ensures '[' !in NullLinks() && OccursAt(NullLinks(), Needle(), 31)
    ensures BodyOf(NullLinks()).Some?
  {
    hide BodyOf, Head, Needle;
    HeadShape();
    NeedleShape();
    var body := NullBody();
    assert body[|body| - 4..] == "null";
    assert body[|body| - 1] == 'l';
    BodyOfInserted(body);
    assert NullLinks() == Head() + Needle() + " null\n}\n";
  }

  lemma HeadShape()
    ensures |Head()| == 31 && '[' !in Head() && '[' !in Needle()
  {
  }

  /** A links key whose value is no array: the first run inserts a second key, and the
      second run writes yet another text. */
  lemma NullLinksChangeAgain(prev: Entry, next: Entry)
    requires PlainUid(prev.uid) && PlainUid(next.uid)
    ensures var once := Threaded(NullLinks(), Block(prev, next));
      once.Some? && Threaded(once.value, Block(prev, next)) != once
  {
    hide Block, BodyOf, NullLinks, PlainUid, ArrayEnd, Find;
    var t := NullLinks();
    NullLinksParts();
    assert !NoNeedle(t);
    forall k: nat ensures !OccursAt(t, "[", k) {
      if OccursAt(t, "[", k) {
        OccursMember(t, "[", k);
      }
    }
    assert Span(t) == None;
    SecondRunIff(t, prev, next);
  }
}
