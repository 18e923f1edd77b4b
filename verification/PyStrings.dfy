/** The string operations of Python that the dashboard scripts use. */
module PyStrings {
  import opened Wrappers

  /** Python's whitespace, up to Latin-1. */
  predicate IsSpace(c: char) {
    c == ' ' || 9 <= c as int <= 13 || 0x1c <= c as int <= 0x1f || c as int == 0x85 || c as int == 0xa0
  }

  function RStrip(s: string): (r: string)
    ensures r <= s
    ensures r != "" ==> !IsSpace(r[|r| - 1])
  {
    if s != "" && IsSpace(s[|s| - 1]) then RStrip(s[..|s| - 1]) else s
  }

  lemma {:induction false} StripRest(s: string, k: nat)
    requires |RStrip(s)| <= k < |s|
    ensures IsSpace(s[k])
    decreases |s|
  {
    if s != "" && IsSpace(s[|s| - 1]) && k < |s| - 1 {
      StripRest(s[..|s| - 1], k);
    }
  }

  /** `s.rstrip("\n")` */
  function RStripNewlines(s: string): (r: string)
    ensures r <= s
  {
    if s != "" && s[|s| - 1] == '\n' then RStripNewlines(s[..|s| - 1]) else s
  }

  predicate EndsWith(s: string, t: string) {
    |t| <= |s| && s[|s| - |t|..] == t
  }

  predicate OccursAt(s: string, t: string, i: nat) {
    i + |t| <= |s| && s[i..i + |t|] == t
  }

  /** `s.find(t, from)`: the first occurrence at or behind `from`. */
  function Find(s: string, t: string, from: nat): (r: Option<nat>)
    requires from <= |s|
    ensures r.Some? ==> from <= r.value && OccursAt(s, t, r.value)
    ensures r.Some? ==> forall k :: from <= k < r.value ==> !OccursAt(s, t, k)
    ensures r == None ==> forall k :: from <= k <= |s| ==> !OccursAt(s, t, k)
    decreases |s| - from
  {
    if OccursAt(s, t, from) then Some(from)
    else if from == |s| then None
    else Find(s, t, from + 1)
  }

  // ---------------------------------------------------------------- what stripping leaves

  /** White space up to Latin-1. */
  predicate Blanks(t: string) {
    forall k :: 0 <= k < |t| ==>
      || t[k] == ' ' || t[k] == '\t' || t[k] == '\n' || t[k] == '\r' || t[k] == '\U{0b}' || t[k] == '\U{0c}'
      || t[k] == '\U{1c}' || t[k] == '\U{1d}' || t[k] == '\U{1e}' || t[k] == '\U{1f}'
      || t[k] == '\U{85}' || t[k] == '\U{a0}'
  }

  /** Stripping on the right leaves what stands before the blanks at the end. */
  lemma {:induction false} RStripIs(m: string, b: string)
    requires Blanks(b) && (m != "" ==> !Blanks([m[|m| - 1]]))
    ensures RStrip(m + b) == m
    decreases b
  {
    if b == "" {
      assert m + b == m;
      assert m != "" ==> [m[|m| - 1]][0] == m[|m| - 1];
    } else {
      assert (m + b)[..|m + b| - 1] == m + b[..|b| - 1];
      RStripIs(m, b[..|b| - 1]);
    }
  }
}
