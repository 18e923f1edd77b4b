/**
 `canonicalize` of cmd/protogen-tesla/parser.go: every list of the model is
 stably sorted by name or number, so that what the emitter prints does not
 depend on the order of declarations (the byte-stability claim of
 cmd/protogen-tesla/main.go).
*/
module Canonicalize {
  import opened Wrappers
  import opened StableSort
  import opened ProtoParser
  import opened ProtoRoundTrip

  // ---------------------------------------------------------------- keys

  /** Go's order on strings: by bytes, a prefix first. */
  predicate StrLe(a: string, b: string) {
    a == "" || (b != "" && (a[0] < b[0] || (a[0] == b[0] && StrLe(a[1..], b[1..]))))
  }

  predicate EnumLe(a: EnumDef, b: EnumDef) { StrLe(a.name, b.name) }
  predicate ValueLe(a: EnumValue, b: EnumValue) { a.number <= b.number }
  predicate MessageLe(a: MessageDef, b: MessageDef) { StrLe(a.name, b.name) }
  predicate FieldLe(a: FieldDef, b: FieldDef) { a.number <= b.number }
  predicate OneofLe(a: OneofDef, b: OneofDef) { StrLe(a.name, b.name) }

  lemma {:induction false} StrLeTotal(a: string, b: string)
    ensures StrLe(a, b) || StrLe(b, a)
    ensures StrLe(a, b) && StrLe(b, a) ==> a == b
  {
    if a != "" && b != "" {
      StrLeTotal(a[1..], b[1..]);
      assert a == [a[0]] + a[1..] && b == [b[0]] + b[1..];
    }
  }

  lemma {:induction false} StrLeTrans(a: string, b: string, c: string)
    requires StrLe(a, b) && StrLe(b, c)
    ensures StrLe(a, c)
  {
    if a != "" && a[0] == b[0] == c[0] {
      StrLeTrans(a[1..], b[1..], c[1..]);
    }
  }

  lemma Orderings()
    ensures Ordering(EnumLe) && Ordering(ValueLe) && Ordering(MessageLe) && Ordering(FieldLe) && Ordering(OneofLe)
  {
    forall a: string, b: string
      ensures StrLe(a, b) || StrLe(b, a)
    {
      StrLeTotal(a, b);
    }
    forall a: string, b: string, c: string | StrLe(a, b) && StrLe(b, c)
      ensures StrLe(a, c)
    {
      StrLeTrans(a, b, c);
    }
  }

  // ---------------------------------------------------------------- the canonical model

  function CanonEnum(e: EnumDef): EnumDef {
    e.(values := Sort(ValueLe, e.values))
  }

  function CanonOneof(o: OneofDef): OneofDef {
    o.(variants := Sort(FieldLe, o.variants))
  }

  function CanonMessage(m: MessageDef): MessageDef {
    m.(fields := Sort(FieldLe, m.fields), oneofs := Map(CanonOneof, Sort(OneofLe, m.oneofs)))
  }

  function Canonical(pf: ProtoFile): ProtoFile {
    ProtoFile(pf.package, Map(CanonEnum, Sort(EnumLe, pf.enums)), Map(CanonMessage, Sort(MessageLe, pf.messages)))
  }

  /** The parsed model, whose slices `canonicalize` reorders in place. */
  class Model {
    var package: string
    var enums: seq<EnumDef>
    var messages: seq<MessageDef>

    constructor (pf: ProtoFile)
      ensures Value() == pf
    {
      package, enums, messages := pf.package, pf.enums, pf.messages;
    }

    ghost function Value(): ProtoFile
      reads this
    {
      ProtoFile(package, enums, messages)
    }

    method Canonicalize()
      modifies this
      ensures Value() == Canonical(old(Value()))
    {
      enums := Sort(EnumLe, enums);
      ghost var es := enums;
      for i := 0 to |enums|
        invariant |enums| == |es| && package == old(package) && messages == old(messages)
        invariant forall k :: 0 <= k < |es| ==> enums[k] == if k < i then CanonEnum(es[k]) else es[k]
      {
        enums := enums[i := enums[i].(values := Sort(ValueLe, enums[i].values))];
      }
      assert enums == Map(CanonEnum, es);
      messages := Sort(MessageLe, messages);
      ghost var ms := messages;
      for i := 0 to |messages|
        invariant |messages| == |ms| && package == old(package) && enums == Map(CanonEnum, es)
        invariant forall k :: 0 <= k < |ms| ==> messages[k] == if k < i then CanonMessage(ms[k]) else ms[k]
      {
        var m := messages[i].(fields := Sort(FieldLe, messages[i].fields),
                              oneofs := Sort(OneofLe, messages[i].oneofs));
        ghost var os := m.oneofs;
        for j := 0 to |m.oneofs|
          invariant m == messages[i].(fields := Sort(FieldLe, messages[i].fields), oneofs := m.oneofs)
          invariant |m.oneofs| == |os|
          invariant forall k :: 0 <= k < |os| ==> m.oneofs[k] == if k < j then CanonOneof(os[k]) else os[k]
        {
          m := m.(oneofs := m.oneofs[j := m.oneofs[j].(variants := Sort(FieldLe, m.oneofs[j].variants))]);
        }
        assert m.oneofs == Map(CanonOneof, os);
        messages := messages[i := m];
      }
      assert messages == Map(CanonMessage, ms);
    }
  }

  // ---------------------------------------------------------------- what a file declares

  datatype EnumContent = EnumContent(name: string, values: multiset<EnumValue>)
  datatype OneofContent = OneofContent(name: string, variants: multiset<FieldDef>)
  datatype MessageContent = MessageContent(name: string, fields: multiset<FieldDef>, oneofs: multiset<OneofContent>)

  /** A file with the order of its declarations forgotten at every level: two
      files have equal contents when one is a permutation of the other. */
  datatype FileContent = FileContent(package: string, enums: multiset<EnumContent>, messages: multiset<MessageContent>)

  function ContentOfEnum(e: EnumDef): EnumContent {
    EnumContent(e.name, multiset(e.values))
  }

  function ContentOfOneof(o: OneofDef): OneofContent {
    OneofContent(o.name, multiset(o.variants))
  }

  function ContentOfMessage(m: MessageDef): MessageContent {
    MessageContent(m.name, multiset(m.fields), multiset(Map(ContentOfOneof, m.oneofs)))
  }

  function Content(pf: ProtoFile): FileContent {
    FileContent(pf.package, multiset(Map(ContentOfEnum, pf.enums)), multiset(Map(ContentOfMessage, pf.messages)))
  }

  ghost predicate DistinctMessage(m: MessageDef) {
    && KeysDetermine(FieldLe, m.fields)
    && KeysDetermine(OneofLe, m.oneofs)
    && forall o :: o in m.oneofs ==> KeysDetermine(FieldLe, o.variants)
  }

  /** At every level a name or number stands for one declaration. */
  ghost predicate DistinctKeys(pf: ProtoFile) {
    && KeysDetermine(EnumLe, pf.enums)
    && KeysDetermine(MessageLe, pf.messages)
    && (forall e :: e in pf.enums ==> KeysDetermine(ValueLe, e.values))
    && forall m :: m in pf.messages ==> DistinctMessage(m)
  }

  predicate SortedMessage(m: MessageDef) {
    && Sorted(FieldLe, m.fields)
    && Sorted(OneofLe, m.oneofs)
    && forall o :: o in m.oneofs ==> Sorted(FieldLe, o.variants)
  }

  /** Every level is sorted by its key. */
  predicate SortedFile(pf: ProtoFile) {
    && Sorted(EnumLe, pf.enums)
    && Sorted(MessageLe, pf.messages)
    && (forall e :: e in pf.enums ==> Sorted(ValueLe, e.values))
    && forall m :: m in pf.messages ==> SortedMessage(m)
  }

  // ---------------------------------------------------------------- nothing is lost

  lemma EnumContentKept(e: EnumDef)
    ensures ContentOfEnum(CanonEnum(e)) == ContentOfEnum(e) && Sorted(ValueLe, CanonEnum(e).values)
  {
    Orderings();
    SortIsStable(ValueLe, e.values);
  }

  lemma OneofContentKept(o: OneofDef)
    ensures ContentOfOneof(CanonOneof(o)) == ContentOfOneof(o) && Sorted(FieldLe, CanonOneof(o).variants)
  {
    Orderings();
    SortIsStable(FieldLe, o.variants);
  }

  lemma MessageContentKept(m: MessageDef)
    ensures ContentOfMessage(CanonMessage(m)) == ContentOfMessage(m) && SortedMessage(CanonMessage(m))
  {
    Orderings();
    SortIsStable(FieldLe, m.fields);
    SortIsStable(OneofLe, m.oneofs);
    var os := Sort(OneofLe, m.oneofs);
    forall o: OneofDef
      ensures ContentOfOneof(CanonOneof(o)) == ContentOfOneof(o) && Sorted(FieldLe, CanonOneof(o).variants)
    {
      OneofContentKept(o);
    }
    assert Map(ContentOfOneof, Map(CanonOneof, os)) == Map(ContentOfOneof, os);
    MultisetMap(ContentOfOneof, os, m.oneofs);
  }

  /** Canonicalization permutes declarations at every level and leaves every
      level sorted; no entry is lost, added or changed. */
  lemma CanonicalKeepsAndSorts(pf: ProtoFile)
    ensures Content(Canonical(pf)) == Content(pf)
    ensures SortedFile(Canonical(pf))
  {
    Orderings();
    var es, ms := Sort(EnumLe, pf.enums), Sort(MessageLe, pf.messages);
    SortIsStable(EnumLe, pf.enums);
    SortIsStable(MessageLe, pf.messages);
    forall e: EnumDef
      ensures ContentOfEnum(CanonEnum(e)) == ContentOfEnum(e) && Sorted(ValueLe, CanonEnum(e).values)
    {
      EnumContentKept(e);
    }
    forall m: MessageDef
      ensures ContentOfMessage(CanonMessage(m)) == ContentOfMessage(m) && SortedMessage(CanonMessage(m))
    {
      MessageContentKept(m);
    }
    assert Map(ContentOfEnum, Map(CanonEnum, es)) == Map(ContentOfEnum, es);
    assert Map(ContentOfMessage, Map(CanonMessage, ms)) == Map(ContentOfMessage, ms);
    MultisetMap(ContentOfEnum, es, pf.enums);
    MultisetMap(ContentOfMessage, ms, pf.messages);
  }

  /** Go's order on strings, said outright: `a` begins `b`, or at the first place where
      they differ `a` has the smaller byte. */
  predicate NotAfter(a: string, b: string) {
    a <= b || exists k :: 0 <= k < |a| && k < |b| && a[..k] == b[..k] && a[k] < b[k]
  }

  lemma {:induction false} StrLeMeans(a: string, b: string)
    ensures StrLe(a, b) <==> NotAfter(a, b)
    decreases a
  {
    if a != "" && b != "" && a[0] == b[0] {
      StrLeMeans(a[1..], b[1..]);
      assert a == [a[0]] + a[1..] && b == [b[0]] + b[1..];
      forall k | 0 <= k < |a[1..]| && k < |b[1..]| && a[1..][..k] == b[1..][..k] && a[1..][k] < b[1..][k]
        ensures NotAfter(a, b)
      {
        assert a[..k + 1] == [a[0]] + a[1..][..k] && b[..k + 1] == [b[0]] + b[1..][..k];
        assert a[k + 1] < b[k + 1];
      }
      forall k | 0 <= k < |a| && k < |b| && a[..k] == b[..k] && a[k] < b[k]
        ensures NotAfter(a[1..], b[1..])
      {
        assert a[1..][..k - 1] == a[..k][1..] && b[1..][..k - 1] == b[..k][1..];
        assert a[1..][k - 1] < b[1..][k - 1];
      }
    } else if a != "" && b != "" {
      assert a[..0] == b[..0];
      assert forall k :: 0 < k <= |a| && k <= |b| ==> a[..k][0] == a[0] && b[..k][0] == b[0];
    }
  }

  predicate RisingValues(vs: seq<EnumValue>) {
    forall i, j :: 0 <= i < j < |vs| ==> vs[i].number <= vs[j].number
  }

  predicate RisingFields(fs: seq<FieldDef>) {
    forall i, j :: 0 <= i < j < |fs| ==> fs[i].number <= fs[j].number
  }

  predicate RisingOneofs(os: seq<OneofDef>) {
    && (forall i, j :: 0 <= i < j < |os| ==> NotAfter(os[i].name, os[j].name))
    && forall o :: o in os ==> RisingFields(o.variants)
  }

  /** In the canonical model names never fall at the levels sorted by name, and numbers
      never fall at the levels sorted by number. */
  lemma CanonicalRises(pf: ProtoFile)
    ensures var c := Canonical(pf);
      && (forall i, j :: 0 <= i < j < |c.enums| ==> NotAfter(c.enums[i].name, c.enums[j].name))
      && (forall e :: e in c.enums ==> RisingValues(e.values))
      && (forall i, j :: 0 <= i < j < |c.messages| ==> NotAfter(c.messages[i].name, c.messages[j].name))
      && forall m :: m in c.messages ==> RisingFields(m.fields) && RisingOneofs(m.oneofs)
  {
    hide Canonical, StrLe, NotAfter;
    CanonicalKeepsAndSorts(pf);
    forall a, b
      ensures StrLe(a, b) <==> NotAfter(a, b)
    {
      StrLeMeans(a, b);
    }
  }

  lemma SortedMessageFixed(m: MessageDef)
    requires SortedMessage(m)
    ensures CanonMessage(m) == m
  {
    Orderings();
    SortOfSorted(FieldLe, m.fields);
    SortOfSorted(OneofLe, m.oneofs);
    forall o | o in m.oneofs
      ensures CanonOneof(o) == o
    {
      SortOfSorted(FieldLe, o.variants);
    }
    assert Map(CanonOneof, m.oneofs) == m.oneofs;
  }

  /** A sorted model is its own canonical form, so canonicalizing twice is
      canonicalizing once. */
  lemma SortedIsCanonical(pf: ProtoFile)
    requires SortedFile(pf)
    ensures Canonical(pf) == pf
  {
    Orderings();
    SortOfSorted(EnumLe, pf.enums);
    SortOfSorted(MessageLe, pf.messages);
    forall e | e in pf.enums
      ensures CanonEnum(e) == e
    {
      SortOfSorted(ValueLe, e.values);
    }
    forall m | m in pf.messages
      ensures CanonMessage(m) == m
    {
      SortedMessageFixed(m);
    }
    assert Map(CanonEnum, pf.enums) == pf.enums;
    assert Map(CanonMessage, pf.messages) == pf.messages;
  }

  lemma SortOfSorted<T(!new)>(le: (T, T) -> bool, s: seq<T>)
    requires Ordering(le) && Sorted(le, s)
    ensures Sort(le, s) == s
  {
    SortIsStable(le, s);
    StableUnique(le, Sort(le, s), s);
  }

  lemma CanonicalIdempotent(pf: ProtoFile)
    ensures Canonical(Canonical(pf)) == Canonical(pf)
  {
    CanonicalKeepsAndSorts(pf);
    SortedIsCanonical(Canonical(pf));
  }

  // ---------------------------------------------------------------- order is forgotten

  lemma EnumsForget(es: seq<EnumDef>, fs: seq<EnumDef>)
    requires multiset(Map(ContentOfEnum, es)) == multiset(Map(ContentOfEnum, fs))
    requires KeysDetermine(EnumLe, es) && forall e :: e in es ==> KeysDetermine(ValueLe, e.values)
    ensures Map(CanonEnum, Sort(EnumLe, es)) == Map(CanonEnum, Sort(EnumLe, fs))
  {
    Orderings();
    forall e, f | e in es && f in fs && ContentOfEnum(e) == ContentOfEnum(f)
      ensures CanonEnum(e) == CanonEnum(f)
    {
      SortForgetsOrder(ValueLe, e.values, f.values);
    }
    MapMultiset(ContentOfEnum, CanonEnum, es, fs);
    SortMap(CanonEnum, EnumLe, EnumLe, es);
    SortMap(CanonEnum, EnumLe, EnumLe, fs);
    MappedKeys(CanonEnum, EnumLe, es);
    SortForgetsOrder(EnumLe, Map(CanonEnum, es), Map(CanonEnum, fs));
  }

  lemma MappedKeys<A(!new)>(f: A -> A, le: (A, A) -> bool, s: seq<A>)
    requires KeysDetermine(le, s) && forall a, b :: le(f(a), f(b)) == le(a, b)
    ensures KeysDetermine(le, Map(f, s))
  {
    forall a, b | a in Map(f, s) && b in Map(f, s) && Same(le, a, b)
      ensures a == b
    {
      var i :| 0 <= i < |s| && Map(f, s)[i] == a;
      var j :| 0 <= j < |s| && Map(f, s)[j] == b;
      assert s[i] in s && s[j] in s && Same(le, s[i], s[j]);
    }
  }

  lemma OneofsForget(os: seq<OneofDef>, ps: seq<OneofDef>)
    requires multiset(Map(ContentOfOneof, os)) == multiset(Map(ContentOfOneof, ps))
    requires KeysDetermine(OneofLe, os) && forall o :: o in os ==> KeysDetermine(FieldLe, o.variants)
    ensures Map(CanonOneof, Sort(OneofLe, os)) == Map(CanonOneof, Sort(OneofLe, ps))
  {
    Orderings();
    forall o, p | o in os && p in ps && ContentOfOneof(o) == ContentOfOneof(p)
      ensures CanonOneof(o) == CanonOneof(p)
    {
      SortForgetsOrder(FieldLe, o.variants, p.variants);
    }
    MapMultiset(ContentOfOneof, CanonOneof, os, ps);
    SortMap(CanonOneof, OneofLe, OneofLe, os);
    SortMap(CanonOneof, OneofLe, OneofLe, ps);
    MappedKeys(CanonOneof, OneofLe, os);
    SortForgetsOrder(OneofLe, Map(CanonOneof, os), Map(CanonOneof, ps));
  }

  lemma MessagesForget(ms: seq<MessageDef>, ns: seq<MessageDef>)
    requires multiset(Map(ContentOfMessage, ms)) == multiset(Map(ContentOfMessage, ns))
    requires KeysDetermine(MessageLe, ms) && forall m :: m in ms ==> DistinctMessage(m)
    ensures Map(CanonMessage, Sort(MessageLe, ms)) == Map(CanonMessage, Sort(MessageLe, ns))
  {
    Orderings();
    forall m, n | m in ms && n in ns && ContentOfMessage(m) == ContentOfMessage(n)
      ensures CanonMessage(m) == CanonMessage(n)
    {
      SortForgetsOrder(FieldLe, m.fields, n.fields);
      OneofsForget(m.oneofs, n.oneofs);
    }
    MapMultiset(ContentOfMessage, CanonMessage, ms, ns);
    SortMap(CanonMessage, MessageLe, MessageLe, ms);
    SortMap(CanonMessage, MessageLe, MessageLe, ns);
    MappedKeys(CanonMessage, MessageLe, ms);
    SortForgetsOrder(MessageLe, Map(CanonMessage, ms), Map(CanonMessage, ns));
  }

  lemma DistinctForgets(pf: ProtoFile, qf: ProtoFile)
    requires DistinctKeys(pf)
    ensures Canonical(pf) == Canonical(qf) <==> Content(pf) == Content(qf)
  {
    CanonicalKeepsAndSorts(pf);
    CanonicalKeepsAndSorts(qf);
    if Content(pf) == Content(qf) {
      EnumsForget(pf.enums, qf.enums);
      MessagesForget(pf.messages, qf.messages);
    }
  }

  /** A file whose canonical model has distinct keys has the same canonical model as
      another exactly when they declare the same things, in whatever order. */
  lemma CanonicalForgetsOrder(pf: ProtoFile, qf: ProtoFile)
    requires DistinctKeys(Canonical(pf))
    ensures Canonical(pf) == Canonical(qf) <==> Content(pf) == Content(qf)
  {
    CanonicalKeepsAndSorts(pf);
    CanonicalIdempotent(pf);
    DistinctForgets(Canonical(pf), qf);
  }

  // ---------------------------------------------------------------- order that is seen

  /** With one entry rewritten to another of the same key, a sorted list stays sorted. */
  lemma ReplacedSorted<T(!new)>(le: (T, T) -> bool, s: seq<T>, i: nat, x: T)
    requires Ordering(le) && Sorted(le, s) && i < |s| && Same(le, s[i], x)
    ensures Sorted(le, s[i := x])
  {
  }

  lemma MapReplaced<A, B>(f: A -> B, s: seq<A>, i: nat, x: A)
    requires i < |s| && f(x) == f(s[i])
    ensures Map(f, s[i := x]) == Map(f, s)
  {
  }

  /** Entries that are their own canonical form are only sorted. */
  lemma MapFixed<A>(f: A -> A, s: seq<A>)
    requires forall x :: x in s ==> f(x) == x
    ensures Map(f, s) == s
  {
  }

  lemma SortedEntries<T(!new)>(le: (T, T) -> bool, s: seq<T>, t: seq<T>)
    requires Ordering(le) && multiset(t) == multiset(s)
    ensures forall x :: x in Sort(le, t) ==> x in s
  {
    SortIsStable(le, t);
    assert forall x :: x in Sort(le, t) ==> x in multiset(Sort(le, t));
    assert forall x :: x in multiset(s) ==> x in s;
  }

  /** A list of canonical entries whose keys do not determine them is seen in some order. */
  lemma ListSeen<A(!new), B>(le: (A, A) -> bool, f: A -> A, content: A -> B, s: seq<A>) returns (t: seq<A>)
    requires Ordering(le) && Sorted(le, s) && !KeysDetermine(le, s) && forall x :: x in s ==> f(x) == x
    ensures multiset(Map(content, t)) == multiset(Map(content, s)) && Map(f, Sort(le, t)) != s
  {
    t := OrderSeen(le, s);
    SortOfSorted(le, s);
    SortedEntries(le, s, t);
    MapFixed(f, Sort(le, t));
    MultisetMap(content, t, s);
  }

  /** An entry with another canonical form of the same content is seen in the list. */
  lemma EntrySeen<A(!new), B>(
    le: (A, A) -> bool, f: A -> A, content: A -> B, s: seq<A>, i: nat, x: A) returns (t: seq<A>)
    requires Ordering(le) && Sorted(le, s) && i < |s| && Same(le, s[i], x)
    requires content(x) == content(s[i]) && f(x) != s[i]
    ensures multiset(Map(content, t)) == multiset(Map(content, s)) && Map(f, Sort(le, t)) != s
  {
    t := s[i := x];
    ReplacedSorted(le, s, i, x);
    SortOfSorted(le, t);
    MapReplaced(content, s, i, x);
    assert Map(f, t)[i] == f(x);
  }

  lemma ValuesSeen(e: EnumDef) returns (d: EnumDef)
    requires Sorted(ValueLe, e.values) && !KeysDetermine(ValueLe, e.values)
    ensures d.name == e.name && ContentOfEnum(d) == ContentOfEnum(e) && CanonEnum(d) != e
  {
    Orderings();
    SortOfSorted(ValueLe, e.values);
    var t := OrderSeen(ValueLe, e.values);
    d := e.(values := t);
  }

  lemma VariantsSeen(o: OneofDef) returns (p: OneofDef)
    requires Sorted(FieldLe, o.variants) && !KeysDetermine(FieldLe, o.variants)
    ensures p.name == o.name && ContentOfOneof(p) == ContentOfOneof(o) && CanonOneof(p) != o
  {
    Orderings();
    SortOfSorted(FieldLe, o.variants);
    var t := OrderSeen(FieldLe, o.variants);
    p := o.(variants := t);
  }

  lemma SameName(a: string)
    ensures StrLe(a, a)
  {
    StrLeTotal(a, a);
  }

  lemma MessageSeen(m: MessageDef) returns (n: MessageDef)
    requires SortedMessage(m) && !DistinctMessage(m)
    ensures n.name == m.name && ContentOfMessage(n) == ContentOfMessage(m) && CanonMessage(n) != m
  {
    hide Sort, Map, Class;
    Orderings();
    if !KeysDetermine(FieldLe, m.fields) {
      SortOfSorted(FieldLe, m.fields);
      var t := OrderSeen(FieldLe, m.fields);
      n := m.(fields := t);
    } else {
      var t := OneofsSeen(m.oneofs);
      n := m.(oneofs := t);
    }
  }

  lemma OneofsSeen(os: seq<OneofDef>) returns (t: seq<OneofDef>)
    requires Sorted(OneofLe, os) && forall o :: o in os ==> Sorted(FieldLe, o.variants)
    requires !KeysDetermine(OneofLe, os) || exists o :: o in os && !KeysDetermine(FieldLe, o.variants)
    ensures multiset(Map(ContentOfOneof, t)) == multiset(Map(ContentOfOneof, os))
    ensures Map(CanonOneof, Sort(OneofLe, t)) != os
  {
    hide Sort, Map, Class, KeysDetermine;
    Orderings();
    if !KeysDetermine(OneofLe, os) {
      forall o | o in os
        ensures CanonOneof(o) == o
      {
        SortOfSorted(FieldLe, o.variants);
      }
      t := ListSeen(OneofLe, CanonOneof, ContentOfOneof, os);
    } else {
      var o :| o in os && !KeysDetermine(FieldLe, o.variants);
      var i :| 0 <= i < |os| && os[i] == o;
      var p := VariantsSeen(o);
      SameName(o.name);
      t := EntrySeen(OneofLe, CanonOneof, ContentOfOneof, os, i, p);
    }
  }

  lemma EnumsSeen(es: seq<EnumDef>) returns (t: seq<EnumDef>)
    requires Sorted(EnumLe, es) && forall e :: e in es ==> Sorted(ValueLe, e.values)
    requires !KeysDetermine(EnumLe, es) || exists e :: e in es && !KeysDetermine(ValueLe, e.values)
    ensures multiset(Map(ContentOfEnum, t)) == multiset(Map(ContentOfEnum, es))
    ensures Map(CanonEnum, Sort(EnumLe, t)) != es
  {
    hide Sort, Map, Class, KeysDetermine;
    Orderings();
    if !KeysDetermine(EnumLe, es) {
      forall e | e in es
        ensures CanonEnum(e) == e
      {
        SortOfSorted(ValueLe, e.values);
      }
      t := ListSeen(EnumLe, CanonEnum, ContentOfEnum, es);
    } else {
      var e :| e in es && !KeysDetermine(ValueLe, e.values);
      var i :| 0 <= i < |es| && es[i] == e;
      var d := ValuesSeen(e);
      SameName(e.name);
      t := EntrySeen(EnumLe, CanonEnum, ContentOfEnum, es, i, d);
    }
  }

  lemma MessagesSeen(ms: seq<MessageDef>) returns (t: seq<MessageDef>)
    requires Sorted(MessageLe, ms) && forall m :: m in ms ==> SortedMessage(m)
    requires !KeysDetermine(MessageLe, ms) || exists m :: m in ms && !DistinctMessage(m)
    ensures multiset(Map(ContentOfMessage, t)) == multiset(Map(ContentOfMessage, ms))
    ensures Map(CanonMessage, Sort(MessageLe, t)) != ms
  {
    hide Sort, Map, Class, KeysDetermine, DistinctMessage, SortedMessage;
    Orderings();
    if !KeysDetermine(MessageLe, ms) {
      forall m | m in ms
        ensures CanonMessage(m) == m
      {
        SortedMessageFixed(m);
      }
      t := ListSeen(MessageLe, CanonMessage, ContentOfMessage, ms);
    } else {
      var m :| m in ms && !DistinctMessage(m);
      var i :| 0 <= i < |ms| && ms[i] == m;
      var n := MessageSeen(m);
      SameName(m.name);
      t := EntrySeen(MessageLe, CanonMessage, ContentOfMessage, ms, i, n);
    }
  }

  /** A canonical model without distinct keys is seen in some other order. */
  lemma FileSeen(pf: ProtoFile) returns (qf: ProtoFile)
    requires SortedFile(pf) && !DistinctKeys(pf)
    ensures Content(qf) == Content(pf) && Canonical(qf) != pf
  {
    hide Sort, Map, Class, KeysDetermine, DistinctMessage, SortedMessage;
    if !KeysDetermine(EnumLe, pf.enums) || exists e :: e in pf.enums && !KeysDetermine(ValueLe, e.values) {
      var t := EnumsSeen(pf.enums);
      qf := pf.(enums := t);
    } else {
      var t := MessagesSeen(pf.messages);
      qf := pf.(messages := t);
    }
  }

  /** The order of the declarations of a file is forgotten, at every level and whatever
      the order, if and only if in its canonical model every name or number stands for
      one declaration. */
  lemma OrderForgottenIff(pf: ProtoFile)
    ensures (forall qf :: Content(qf) == Content(pf) ==> Canonical(qf) == Canonical(pf)) <==>
            DistinctKeys(Canonical(pf))
  {
    hide Canonical, Content, DistinctKeys, SortedFile;
    CanonicalKeepsAndSorts(pf);
    if DistinctKeys(Canonical(pf)) {
      forall qf | Content(qf) == Content(pf)
        ensures Canonical(qf) == Canonical(pf)
      {
        CanonicalForgetsOrder(pf, qf);
      }
    } else {
      var qf := FileSeen(Canonical(pf));
    }
  }

  /** Distinct keys in the file as declared are enough. */
  lemma DistinctSuffices(pf: ProtoFile)
    requires DistinctKeys(pf)
    ensures DistinctKeys(Canonical(pf))
  {
    hide Canonical, Content, DistinctKeys;
    forall qf | Content(qf) == Content(pf)
      ensures Canonical(qf) == Canonical(pf)
    {
      DistinctForgets(pf, qf);
    }
    OrderForgottenIff(pf);
  }

  // ---------------------------------------------------------------- ParseProtoFile

  /** `ParseProtoFile` on the text of the file. */
  function ParseProto(src: string): Result<ProtoFile, ReadError> {
    match ReadProto(src)
    case Ok(pf) => Ok(Canonical(pf))
    case Err(e) => Err(e)
  }

  method ParseProtoFile(src: string) returns (r: Result<ProtoFile, ReadError>)
    ensures r == ParseProto(src)
  {
    r := ReadProtoText(src);
    if r.Ok? {
      var m := new Model(r.value);
      m.Canonicalize();
      r := Ok(ProtoFile(m.package, m.enums, m.messages));
    }
  }

  /** Printing a canonical model and parsing it gives it back; printing two files
      that differ only in the order of their declarations gives one model. */
  lemma ParseProtoRoundTrip(pf: ProtoFile, qf: ProtoFile)
    requires PrintableFile(pf) && PrintableFile(qf)
    ensures ParseProto(PrintFile(pf)) == Ok(Canonical(pf))
    ensures SortedFile(pf) ==> ParseProto(PrintFile(pf)) == Ok(pf)
    ensures DistinctKeys(Canonical(pf)) ==>
              (ParseProto(PrintFile(pf)) == ParseProto(PrintFile(qf)) <==> Content(pf) == Content(qf))
  {
    PrintRoundTrip(pf);
    PrintRoundTrip(qf);
    if SortedFile(pf) {
      SortedIsCanonical(pf);
    }
    if DistinctKeys(Canonical(pf)) {
      CanonicalForgetsOrder(pf, qf);
    }
  }
}
