/**
 The enum part of cmd/protogen-tesla/emit.go: the common prefix of an enum's
 value names, the generated `String`, `Parse` and prefix-trimming code, and
 how the three fit together.

 The generated switches are interpreted as functions: `GenString`, `GenParse`
 and `GenShort` are what the emitted Go does for a value or a string.
*/
module EnumCodegen {
  import opened Wrappers
  import opened ProtoParser

  // ---------------------------------------------------------------- longest common prefix

  function CommonLen(a: string, b: string): (n: nat)
    ensures n <= |a| && n <= |b| && a[..n] == b[..n]
    ensures n < |a| && n < |b| ==> a[n] != b[n]
  {
    if a == "" || b == "" || a[0] != b[0] then 0
    else
      var m := CommonLen(a[1..], b[1..]);
      assert a[..m + 1] == [a[0]] + a[1..][..m] && b[..m + 1] == [b[0]] + b[1..][..m];
      m + 1
  }

  predicate CommonPrefix(p: string, strs: seq<string>) {
    forall s :: s in strs ==> p <= s
  }

  /** `p` is the longest string every element of `strs` starts with. */
  ghost predicate Longest(p: string, strs: seq<string>) {
    CommonPrefix(p, strs) && forall q :: CommonPrefix(q, strs) ==> q <= p
  }

  /** `longestCommonPrefix`. */
  method LongestCommonPrefix(strs: seq<string>) returns (prefix: string)
    ensures strs == [] ==> prefix == ""
    ensures strs != [] ==> Longest(prefix, strs)
  {
    if |strs| == 0 {
      return "";
    }
    prefix := strs[0];
    var i := 1;
    OneString(strs[..1]);
    while i < |strs|
      invariant 1 <= i <= |strs|
      invariant Longest(prefix, strs[..i])
    {
      var s := strs[i];
      var max := |prefix|;
      if |s| < max {
        max := |s|;
      }
      var j := 0;
      while j < max && prefix[j] == s[j]
        invariant 0 <= j <= max && prefix[..j] == s[..j]
      {
        j := j + 1;
      }
      Truncated(prefix, s, j, strs[..i]);
      assert strs[..i + 1] == strs[..i] + [s];
      prefix := prefix[..j];
      if prefix == "" {
        EmptyLongest(strs[..i + 1], strs);
        return "";
      }
      i := i + 1;
    }
    assert strs[..i] == strs;
  }

  lemma Truncated(prefix: string, s: string, j: nat, strs: seq<string>)
    requires Longest(prefix, strs) && j <= |prefix| && j <= |s| && prefix[..j] == s[..j]
    requires j < |prefix| && j < |s| ==> prefix[j] != s[j]
    ensures Longest(prefix[..j], strs + [s])
  {
    assert prefix[..j] <= s;
    forall q | CommonPrefix(q, strs + [s])
      ensures q <= prefix[..j]
    {
      assert forall x :: x in strs ==> x in strs + [s];
      assert CommonPrefix(q, strs) && s in strs + [s];
      assert forall k {:trigger prefix[k]} :: 0 <= k < |q| ==> q[k] == prefix[k] && q[k] == s[k];
    }
  }

  lemma OneString(strs: seq<string>)
    requires |strs| == 1
    ensures Longest(strs[0], strs)
  {
    assert strs[0] in strs;
  }

  lemma EmptyLongest(some: seq<string>, all: seq<string>)
    requires Longest("", some) && some <= all
    ensures Longest("", all)
  {
    forall q | CommonPrefix(q, all)
      ensures q <= ""
    {
      assert forall i :: 0 <= i < |some| ==> some[i] == all[i] && all[i] in all;
      assert CommonPrefix(q, some);
    }
  }

  /** The prefix as a function of the names; `LongestCommonPrefix` computes it. */
  function Lcp(strs: seq<string>): (p: string)
    ensures strs != [] ==> Longest(p, strs)
  {
    if strs == [] then ""
    else if |strs| == 1 then
      OneString(strs);
      strs[0]
    else
      var last := strs[|strs| - 1];
      var p := Lcp(strs[..|strs| - 1]);
      var n := CommonLen(p, last);
      assert strs == strs[..|strs| - 1] + [last];
      Truncated(p, last, n, strs[..|strs| - 1]);
      p[..n]
  }

  lemma LongestUnique(p: string, q: string, strs: seq<string>)
    requires Longest(p, strs) && Longest(q, strs)
    ensures p == q
  {
    assert p <= q && q <= p;
  }

  /** The order in which an enum declares its values does not matter, nor does
      repetition: names that are the same as a set have the same prefix. */
  lemma LcpOrderIndependent(s: seq<string>, t: seq<string>)
    requires forall x :: x in s <==> x in t
    ensures Lcp(s) == Lcp(t)
  {
    assert t != [] ==> t[0] in t;
    if s != [] {
      assert s[0] in s;
      assert forall q :: CommonPrefix(q, s) <==> CommonPrefix(q, t);
      LongestUnique(Lcp(s), Lcp(t), t);
    }
  }

  // ---------------------------------------------------------------- prefix map and parser tables

  function Names(vs: seq<EnumValue>): (r: seq<string>)
    ensures |r| == |vs|
  {
    seq(|vs|, i requires 0 <= i < |vs| => vs[i].name)
  }

  function PrefixOf(e: EnumDef): string {
    Lcp(Names(e.values))
  }

  function PrefixMap(es: seq<EnumDef>): map<string, string> {
    if es == [] then map[]
    else
      var e, m := es[|es| - 1], PrefixMap(es[..|es| - 1]);
      if e.name == "Field" then m else m[e.name := PrefixOf(e)]
  }

  /** `buildEnumPrefixMap`. */
  method BuildEnumPrefixMap(pf: ProtoFile) returns (enumPrefix: map<string, string>)
    ensures enumPrefix == PrefixMap(pf.enums)
  {
    enumPrefix := map[];
    for k := 0 to |pf.enums|
      invariant enumPrefix == PrefixMap(pf.enums[..k])
    {
      var e := pf.enums[k];
      assert pf.enums[..k + 1][..k] == pf.enums[..k];
      if e.name != "Field" {
        var names: seq<string> := [];
        for i := 0 to |e.values|
          invariant names == Names(e.values[..i])
        {
          names := names + [e.values[i].name];
        }
        assert e.values[..|e.values|] == e.values;
        var p := LongestCommonPrefix(names);
        if names != [] {
          LongestUnique(p, Lcp(names), names);
        }
        enumPrefix := enumPrefix[e.name := p];
      }
    }
    assert pf.enums[..|pf.enums|] == pf.enums;
  }

  /** One row of a generated parser: the name, the number, and the short label
      emitted beside the name, empty when there is none. */
  datatype ParserValue = ParserValue(name: string, number: int, suffix: string)
  datatype ParserEnum = ParserEnum(name: string, values: seq<ParserValue>)

  function SuffixOf(lcp: string, name: string): string {
    if lcp != "" && |name| > |lcp| && name[|lcp|..] != name then name[|lcp|..] else ""
  }

  function ParserRows(e: EnumDef): (r: seq<ParserValue>)
    ensures |r| == |e.values|
  {
    seq(|e.values|, i requires 0 <= i < |e.values| =>
      ParserValue(e.values[i].name, e.values[i].number, SuffixOf(PrefixOf(e), e.values[i].name)))
  }

  function ParserTables(es: seq<EnumDef>): seq<ParserEnum> {
    if es == [] then []
    else
      var e, r := es[|es| - 1], ParserTables(es[..|es| - 1]);
      if e.name == "Field" then r else r + [ParserEnum(e.name, ParserRows(e))]
  }

  /** `renderEnumParsers` up to the template: the rows handed to it. */
  method RenderEnumParsers(pf: ProtoFile) returns (enums: seq<ParserEnum>)
    ensures enums == ParserTables(pf.enums)
  {
    enums := [];
    for k := 0 to |pf.enums|
      invariant enums == ParserTables(pf.enums[..k])
    {
      var e := pf.enums[k];
      assert pf.enums[..k + 1][..k] == pf.enums[..k];
      if e.name != "Field" {
        var names := Names(e.values);
        var lcp := LongestCommonPrefix(names);
        if names != [] {
          LongestUnique(lcp, Lcp(names), names);
        }
        var values: seq<ParserValue> := [];
        for i := 0 to |e.values|
          invariant |values| == i && forall k :: 0 <= k < i ==> values[k] == ParserRows(e)[k]
        {
          var v := e.values[i];
          var suffix := "";
          if lcp != "" && |v.name| > |lcp| {
            var candidate := v.name[|lcp|..];
            if candidate != "" && candidate != v.name {
              suffix := candidate;
            }
          }
          values := values + [ParserValue(v.name, v.number, suffix)];
        }
        assert values == ParserRows(e);
        enums := enums + [ParserEnum(e.name, values)];
      }
    }
    assert pf.enums[..|pf.enums|] == pf.enums;
  }

  // ---------------------------------------------------------------- the generated code

  /** The generated `String`: the name of the first case, or the number. */
  datatype Shown = Symbol(name: string) | Numeric(number: int)

  function GenString(vs: seq<ParserValue>, n: int): Shown {
    if vs == [] then Numeric(n)
    else if vs[0].number == n then Symbol(vs[0].name)
    else GenString(vs[1..], n)
  }

  predicate Accepts(v: ParserValue, s: string) {
    s == v.name || (v.suffix != "" && s == v.suffix)
  }

  /** The generated `Parse`: the first case with the string among its labels. */
  function GenParse(vs: seq<ParserValue>, s: string): Option<int> {
    if vs == [] then None
    else if Accepts(vs[0], s) then Some(vs[0].number)
    else GenParse(vs[1..], s)
  }

  /** `strings.TrimPrefix(x.String(), prefix)`, the decoder's short form. */
  function GenShort(prefix: string, name: string): string {
    if prefix <= name then name[|prefix|..] else name
  }

  /** The string labels of the generated `Parse` switch. */
  function Labels(vs: seq<ParserValue>): seq<string> {
    if vs == [] then []
    else RowLabels(vs[0]) + Labels(vs[1..])
  }

  /** No two are equal: a Go switch with two equal constant cases does not compile. */
  predicate AllDistinct<T(==)>(s: seq<T>) {
    forall i, j :: 0 <= i < j < |s| ==> s[i] != s[j]
  }

  predicate DistinctEnum(e: EnumDef) {
    && AllDistinct(Names(e.values))
    && forall i, j :: 0 <= i < j < |e.values| ==> e.values[i].number != e.values[j].number
  }

  /** No value is named by the prefix followed by the name of a value. */
  predicate NoDoubledPrefix(e: EnumDef) {
    PrefixOf(e) != "" ==>
      forall i, j :: 0 <= i < |e.values| && 0 <= j < |e.values| ==> e.values[j].name != PrefixOf(e) + e.values[i].name
  }

  /** Every name is the prefix and a rest; a short label, if any, is that rest. */
  lemma NameSplits(e: EnumDef, i: nat)
    requires i < |e.values|
    ensures PrefixOf(e) <= e.values[i].name
    ensures e.values[i].name == PrefixOf(e) + GenShort(PrefixOf(e), e.values[i].name)
    ensures ParserRows(e)[i].suffix == if PrefixOf(e) == "" then "" else GenShort(PrefixOf(e), e.values[i].name)
  {
    assert Names(e.values)[i] in Names(e.values);
  }

  lemma {:induction false} LabelsOf(vs: seq<ParserValue>, s: string)
    ensures s in Labels(vs) <==> exists v :: v in vs && Accepts(v, s)
  {
    if vs != [] {
      LabelsOf(vs[1..], s);
      assert vs == [vs[0]] + vs[1..];
      assert Accepts(vs[0], s) <==> s in RowLabels(vs[0]);
    }
  }

  /** Two rows share a label. */
  predicate Clash(v: ParserValue, w: ParserValue) {
    Accepts(w, v.name) || (v.suffix != "" && Accepts(w, v.suffix))
  }

  function RowLabels(v: ParserValue): seq<string> {
    if v.suffix != "" then [v.name, v.suffix] else [v.name]
  }

  lemma HeadApart(v: ParserValue, rest: seq<ParserValue>)
    ensures (forall x :: x in RowLabels(v) ==> x !in Labels(rest)) <==> (forall w :: w in rest ==> !Clash(v, w))
  {
    LabelsOf(rest, v.name);
    LabelsOf(rest, v.suffix);
    assert v.name in RowLabels(v);
    assert v.suffix != "" ==> RowLabels(v)[1] in RowLabels(v);
  }

  /** Labels are distinct exactly when no row has two equal labels and no two
      rows share one. */
  lemma {:induction false} LabelsDistinct(vs: seq<ParserValue>)
    ensures AllDistinct(Labels(vs)) <==>
              (forall v :: v in vs ==> AllDistinct(RowLabels(v)))
              && (forall i, j :: 0 <= i < j < |vs| ==> !Clash(vs[i], vs[j]))
  {
    if vs != [] {
      var rest := vs[1..];
      LabelsDistinct(rest);
      assert vs == [vs[0]] + rest;
      DistinctAppend(RowLabels(vs[0]), Labels(rest));
      HeadApart(vs[0], rest);
      hide AllDistinct, Clash, RowLabels;
      assert forall j :: 0 < j < |vs| ==> vs[j] == rest[j - 1];
      assert (forall w :: w in rest ==> !Clash(vs[0], w)) <==> (forall j :: 0 < j < |vs| ==> !Clash(vs[0], vs[j]));
    }
  }

  lemma DistinctAppend<T>(s: seq<T>, t: seq<T>)
    ensures AllDistinct(s + t) <==> AllDistinct(s) && AllDistinct(t) && forall x :: x in s ==> x !in t
  {
    var u := s + t;
    assert forall i :: 0 <= i < |s| ==> u[i] == s[i];
    assert forall i :: 0 <= i < |t| ==> u[|s| + i] == t[i];
    if AllDistinct(u) {
      assert AllDistinct(t) by {
        forall i, j | 0 <= i < j < |t|
          ensures t[i] != t[j]
        {
          assert u[|s| + i] != u[|s| + j];
        }
      }
    }
    if AllDistinct(s) && AllDistinct(t) && forall x :: x in s ==> x !in t {
      forall i, j | 0 <= i < j < |u|
        ensures u[i] != u[j]
      {
        if i < |s| <= j {
          assert s[i] in s && t[j - |s|] in t;
        }
      }
    }
  }

  /** When all labels are distinct, what `Parse` accepts is read off the rows. */
  lemma {:induction false} ParseFinds(vs: seq<ParserValue>, i: nat, s: string)
    requires i < |vs| && Accepts(vs[i], s)
    requires forall j :: 0 <= j < i ==> !Accepts(vs[j], s)
    ensures GenParse(vs, s) == Some(vs[i].number)
  {
    if i > 0 {
      assert !Accepts(vs[0], s);
      assert forall j :: 0 <= j < i - 1 ==> vs[1..][j] == vs[j + 1];
      ParseFinds(vs[1..], i - 1, s);
    }
  }

  lemma {:induction false} ParseMisses(vs: seq<ParserValue>, s: string)
    requires forall v :: v in vs ==> !Accepts(v, s)
    ensures GenParse(vs, s) == None
  {
    if vs != [] {
      ParseMisses(vs[1..], s);
    }
  }

  lemma {:induction false} StringFinds(vs: seq<ParserValue>, i: nat)
    requires i < |vs| && forall j :: 0 <= j < i ==> vs[j].number != vs[i].number
    ensures GenString(vs, vs[i].number) == Symbol(vs[i].name)
  {
    if i > 0 {
      assert vs[0].number != vs[i].number;
      assert forall j :: 0 <= j < i - 1 ==> vs[1..][j] == vs[j + 1];
      StringFinds(vs[1..], i - 1);
    }
  }

  lemma DistinctLabelsMean(e: EnumDef)
    requires AllDistinct(Labels(ParserRows(e)))
    ensures AllDistinct(Names(e.values)) && NoDoubledPrefix(e)
  {
    var vs, p := ParserRows(e), PrefixOf(e);
    LabelsDistinct(vs);
    hide Labels, AllDistinct;
    forall i, j | 0 <= i < j < |e.values|
      ensures e.values[i].name != e.values[j].name
    {
      assert !Clash(vs[i], vs[j]);
    }
    NamesApart(e);
    forall i, j | p != "" && 0 <= i < |e.values| && 0 <= j < |e.values|
      ensures e.values[j].name != p + e.values[i].name
    {
      ShortOf(p, e.values[i].name);
      NameSplits(e, i);
      NameSplits(e, j);
      assert i < j ==> !Clash(vs[i], vs[j]);
      assert j < i ==> !Clash(vs[j], vs[i]);
    }
  }

  lemma NamesApart(e: EnumDef)
    ensures AllDistinct(Names(e.values)) <==>
              forall i, j :: 0 <= i < j < |e.values| ==> e.values[i].name != e.values[j].name
  {
    if AllDistinct(Names(e.values)) {
      forall i, j | 0 <= i < j < |e.values|
        ensures e.values[i].name != e.values[j].name
      {
        assert Names(e.values)[i] != Names(e.values)[j];
      }
    }
  }

  lemma RowsApart(e: EnumDef, i: nat, j: nat)
    requires AllDistinct(Names(e.values)) && NoDoubledPrefix(e)
    requires i < |e.values| && j < |e.values| && i != j
    ensures !Clash(ParserRows(e)[i], ParserRows(e)[j])
  {
    NamesApart(e);
    NameSplits(e, i);
    NameSplits(e, j);
    var p := PrefixOf(e);
    assert p != "" ==> e.values[j].name != p + e.values[i].name && e.values[i].name != p + e.values[j].name;
  }

  lemma OwnLabelsApart(e: EnumDef, v: ParserValue)
    requires v in ParserRows(e)
    ensures AllDistinct(RowLabels(v))
  {
    var i :| 0 <= i < |e.values| && ParserRows(e)[i] == v;
    NameSplits(e, i);
  }

  lemma ApartMeansDistinct(e: EnumDef)
    requires AllDistinct(Names(e.values)) && NoDoubledPrefix(e)
    ensures AllDistinct(Labels(ParserRows(e)))
  {
    hide Labels, AllDistinct, NoDoubledPrefix, Clash, RowLabels;
    LabelsDistinct(ParserRows(e));
    forall v | v in ParserRows(e)
      ensures AllDistinct(RowLabels(v))
    {
      OwnLabelsApart(e, v);
    }
    forall i, j | 0 <= i < j < |e.values|
      ensures !Clash(ParserRows(e)[i], ParserRows(e)[j])
    {
      RowsApart(e, i, j);
    }
  }

  /** The generated `Parse` switch compiles, all its labels being distinct,
      exactly when the names are distinct and none is the prefix followed by a name. */
  lemma LabelsDistinctIff(e: EnumDef)
    ensures AllDistinct(Labels(ParserRows(e))) <==> AllDistinct(Names(e.values)) && NoDoubledPrefix(e)
  {
    hide *;
    if AllDistinct(Labels(ParserRows(e))) {
      DistinctLabelsMean(e);
    } else if AllDistinct(Names(e.values)) && NoDoubledPrefix(e) {
      ApartMeansDistinct(e);
    }
  }

  lemma ShortOf(p: string, s: string)
    ensures GenShort(p, p + s) == s
  {
  }

  /** The condition callers usually have: no name starts with the prefix twice. */
  lemma NoDoublingSuffices(e: EnumDef)
    requires AllDistinct(Names(e.values))
    requires forall v :: v in e.values ==> !(PrefixOf(e) + PrefixOf(e) <= v.name)
    ensures AllDistinct(Labels(ParserRows(e)))
  {
    var p := PrefixOf(e);
    if p != "" {
      forall i, j | 0 <= i < |e.values| && 0 <= j < |e.values|
        ensures e.values[j].name != p + e.values[i].name
      {
        NameSplits(e, i);
        var rest := GenShort(p, e.values[i].name);
        assert p + (p + rest) == (p + p) + rest;
        assert e.values[j] in e.values;
      }
    }
    LabelsDistinctIff(e);
  }

  /** Whatever a row accepts is parsed to its number. */
  lemma AcceptedParses(e: EnumDef, i: nat, s: string)
    requires AllDistinct(Names(e.values)) && NoDoubledPrefix(e) && i < |e.values| && Accepts(ParserRows(e)[i], s)
    ensures GenParse(ParserRows(e), s) == Some(e.values[i].number)
  {
    forall j | 0 <= j < i
      ensures !Accepts(ParserRows(e)[j], s)
    {
      RowsApart(e, i, j);
    }
    ParseFinds(ParserRows(e), i, s);
  }

  /** The decoder's short form of a value parses back to it exactly when the
      name is more than the prefix. */
  lemma ShortParses(e: EnumDef, i: nat)
    requires DistinctEnum(e) && NoDoubledPrefix(e) && i < |e.values|
    ensures GenParse(ParserRows(e), GenShort(PrefixOf(e), e.values[i].name)) == Some(e.values[i].number)
       <==> e.values[i].name != PrefixOf(e) || PrefixOf(e) == ""
  {
    var p, short := PrefixOf(e), GenShort(PrefixOf(e), e.values[i].name);
    NameSplits(e, i);
    if e.values[i].name != p || p == "" {
      AcceptedParses(e, i, short);
    } else {
      forall r | r in ParserRows(e)
        ensures !Accepts(r, short)
      {
        var k :| 0 <= k < |e.values| && ParserRows(e)[k] == r;
        NameSplits(e, k);
      }
      ParseMisses(ParserRows(e), short);
    }
  }

  /** A value survives being shown and parsed; its decoder short form parses back
      to it exactly when its name is more than the prefix; and short forms of
      different values differ. */
  lemma EnumCodeCoherent(e: EnumDef, i: nat, j: nat)
    requires DistinctEnum(e) && NoDoubledPrefix(e) && i < |e.values| && j < |e.values|
    ensures var vs, v, p := ParserRows(e), e.values[i], PrefixOf(e);
      && GenString(vs, v.number) == Symbol(v.name)
      && GenParse(vs, v.name) == Some(v.number)
      && (GenParse(vs, GenShort(p, v.name)) == Some(v.number) <==> v.name != p || p == "")
      && (i != j ==> GenShort(p, v.name) != GenShort(p, e.values[j].name))
  {
    StringFinds(ParserRows(e), i);
    AcceptedParses(e, i, e.values[i].name);
    ShortParses(e, i);
    NameSplits(e, i);
    NameSplits(e, j);
    NamesApart(e);
  }

  /** `Parse` accepts nothing but names and short labels. */
  lemma {:induction false} ParseSound(vs: seq<ParserValue>, s: string)
    ensures GenParse(vs, s).Some? ==> exists v :: v in vs && Accepts(v, s) && GenParse(vs, s) == Some(v.number)
  {
    if vs != [] && !Accepts(vs[0], s) {
      ParseSound(vs[1..], s);
    }
  }

  // ---------------------------------------------------------------- one prefix everywhere

  /** The prefix the decoder trims and the one the parser's short labels are cut
      at are the same: for an enum of the file, the map entry is the prefix of
      its rows. */
  lemma {:induction false} PrefixesInStep(es: seq<EnumDef>, k: nat)
    requires k < |es| && es[k].name != "Field"
    requires forall i, j :: 0 <= i < j < |es| ==> es[i].name != es[j].name
    ensures es[k].name in PrefixMap(es) && PrefixMap(es)[es[k].name] == PrefixOf(es[k])
    ensures ParserEnum(es[k].name, ParserRows(es[k])) in ParserTables(es)
  {
    var front := es[..|es| - 1];
    if k < |es| - 1 {
      PrefixesInStep(front, k);
      assert es[k].name != es[|es| - 1].name;
    }
  }

  /** Declaring the values in another order changes neither the prefix nor the
      label any name is given. */
  lemma RowsOrderIndependent(e: EnumDef, f: EnumDef)
    requires multiset(e.values) == multiset(f.values)
    ensures PrefixOf(e) == PrefixOf(f)
    ensures forall r :: r in ParserRows(e) <==> r in ParserRows(f)
  {
    SameMembers(e, f);
    SameMembers(f, e);
    LcpOrderIndependent(Names(e.values), Names(f.values));
    SameRows(e, f);
    SameRows(f, e);
  }

  lemma SameMembers(e: EnumDef, f: EnumDef)
    requires multiset(e.values) == multiset(f.values)
    ensures forall x :: x in Names(e.values) ==> x in Names(f.values)
  {
    forall x | x in Names(e.values)
      ensures x in Names(f.values)
    {
      var i :| 0 <= i < |e.values| && Names(e.values)[i] == x;
      assert e.values[i] in multiset(f.values);
      var j :| 0 <= j < |f.values| && f.values[j] == e.values[i];
      assert Names(f.values)[j] == x;
    }
  }

  lemma SameRows(e: EnumDef, f: EnumDef)
    requires multiset(e.values) == multiset(f.values) && PrefixOf(e) == PrefixOf(f)
    ensures forall r :: r in ParserRows(e) ==> r in ParserRows(f)
  {
    forall r | r in ParserRows(e)
      ensures r in ParserRows(f)
    {
      var i :| 0 <= i < |e.values| && ParserRows(e)[i] == r;
      assert e.values[i] in multiset(f.values);
      var j :| 0 <= j < |f.values| && f.values[j] == e.values[i];
      assert ParserRows(f)[j] == r;
    }
  }
}
