/**
 Stable sorting, as `sort.SliceStable` promises it: the result is sorted and
 entries with equal keys keep their order. These two facts determine the result.
*/
module StableSort {

  /** `le` is a total preorder: entries with equal keys are below each other. */
  ghost predicate Ordering<T(!new)>(le: (T, T) -> bool) {
    && (forall a, b :: le(a, b) || le(b, a))
    && forall a, b, c :: le(a, b) && le(b, c) ==> le(a, c)
  }

  predicate Same<T>(le: (T, T) -> bool, a: T, b: T) {
    le(a, b) && le(b, a)
  }

  predicate Sorted<T>(le: (T, T) -> bool, s: seq<T>) {
    forall i, j :: 0 <= i < j < |s| ==> le(s[i], s[j])
  }

  function Insert<T>(le: (T, T) -> bool, x: T, s: seq<T>): seq<T> {
    if s == [] || le(x, s[0]) then [x] + s else [s[0]] + Insert(le, x, s[1..])
  }

  function Sort<T>(le: (T, T) -> bool, s: seq<T>): seq<T> {
    if s == [] then [] else Insert(le, s[0], Sort(le, s[1..]))
  }

  /** The entries of `s` with the key of `a`, in order. */
  function Class<T>(le: (T, T) -> bool, a: T, s: seq<T>): seq<T> {
    if s == [] then []
    else if Same(le, a, s[0]) then [s[0]] + Class(le, a, s[1..])
    else Class(le, a, s[1..])
  }

  // ---------------------------------------------------------------- the result

  lemma {:induction false} InsertKeeps<T(!new)>(le: (T, T) -> bool, x: T, s: seq<T>)
    requires Ordering(le) && Sorted(le, s)
    ensures multiset(Insert(le, x, s)) == multiset{x} + multiset(s)
    ensures Sorted(le, Insert(le, x, s))
  {
    if s == [] {
    } else if le(x, s[0]) {
      assert forall i :: 0 <= i < |s| ==> le(x, s[i]);
    } else {
      var r := Insert(le, x, s[1..]);
      InsertKeeps(le, x, s[1..]);
      assert s == [s[0]] + s[1..];
      forall i | 0 <= i < |r|
        ensures le(s[0], r[i])
      {
        assert r[i] in multiset(r);
      }
    }
  }

  lemma {:induction false} InsertClass<T(!new)>(le: (T, T) -> bool, x: T, s: seq<T>, a: T)
    requires Ordering(le) && Sorted(le, s)
    ensures Class(le, a, Insert(le, x, s)) == Class(le, a, [x] + s)
  {
    assert ([x] + s)[1..] == s;
    if s != [] && !le(x, s[0]) {
      InsertClass(le, x, s[1..], a);
      var r := Insert(le, x, s[1..]);
      assert ([s[0]] + r)[1..] == r;
      assert ([x] + s[1..])[1..] == s[1..];
      assert !(Same(le, a, x) && Same(le, a, s[0]));
    }
  }

  /** Sorting permutes, sorts, and keeps the order of entries with equal keys. */
  lemma {:induction false} SortIsStable<T(!new)>(le: (T, T) -> bool, s: seq<T>)
    requires Ordering(le)
    ensures multiset(Sort(le, s)) == multiset(s)
    ensures Sorted(le, Sort(le, s))
    ensures forall a :: Class(le, a, Sort(le, s)) == Class(le, a, s)
  {
    if s != [] {
      SortIsStable(le, s[1..]);
      InsertKeeps(le, s[0], Sort(le, s[1..]));
      assert s == [s[0]] + s[1..];
      forall a
        ensures Class(le, a, Sort(le, s)) == Class(le, a, s)
      {
        InsertClass(le, s[0], Sort(le, s[1..]), a);
        assert ([s[0]] + Sort(le, s[1..]))[1..] == Sort(le, s[1..]);
      }
    }
  }

  lemma ClassHead<T(!new)>(le: (T, T) -> bool, s: seq<T>)
    requires Ordering(le) && s != []
    ensures Class(le, s[0], s) == [s[0]] + Class(le, s[0], s[1..])
  {
    assert le(s[0], s[0]);
  }

  lemma {:induction false} ClassMembers<T(!new)>(le: (T, T) -> bool, a: T, s: seq<T>)
    requires Ordering(le)
    ensures forall y :: y in Class(le, a, s) <==> y in s && Same(le, a, y)
  {
    if s != [] {
      ClassMembers(le, a, s[1..]);
      assert s == [s[0]] + s[1..];
    }
  }

  /** A stable sort has no freedom: being sorted with the same entries, in the
      same order, under every key leaves one result. */
  lemma {:induction false} StableUnique<T(!new)>(le: (T, T) -> bool, s: seq<T>, t: seq<T>)
    requires Ordering(le) && Sorted(le, s) && Sorted(le, t)
    requires forall a :: Class(le, a, s) == Class(le, a, t)
    ensures s == t
  {
    if s == [] {
      if t != [] {
        ClassHead(le, t);
      }
    } else {
      ClassHead(le, s);
      ClassMembers(le, s[0], t);
      assert s[0] in Class(le, s[0], t);
      assert t != [];
      ClassHead(le, t);
      ClassMembers(le, t[0], s);
      assert t[0] in Class(le, t[0], s);
      assert le(s[0], t[0]) by {
        var i :| 0 <= i < |s| && s[i] == t[0];
        assert le(s[0], s[0]);
      }
      assert le(t[0], s[0]) by {
        var i :| 0 <= i < |t| && t[i] == s[0];
        assert le(t[0], t[0]);
      }
      assert Class(le, s[0], t) == [t[0]] + Class(le, s[0], t[1..]);
      assert Class(le, s[0], s)[0] == s[0] && Class(le, s[0], t)[0] == t[0];
      forall a
        ensures Class(le, a, s[1..]) == Class(le, a, t[1..])
      {
        assert Class(le, a, s) == Class(le, a, t);
        assert Same(le, a, s[0]) ==> Class(le, a, s[1..]) == Class(le, a, s)[1..];
        assert Same(le, a, s[0]) ==> Class(le, a, t[1..]) == Class(le, a, t)[1..];
      }
      StableUnique(le, s[1..], t[1..]);
      assert s == [s[0]] + s[1..] && t == [t[0]] + t[1..];
    }
  }

  // ---------------------------------------------------------------- order independence

  /** Entries of `s` with equal keys are equal. */
  ghost predicate KeysDetermine<T>(le: (T, T) -> bool, s: seq<T>) {
    forall a, b :: a in s && b in s && Same(le, a, b) ==> a == b
  }

  lemma {:induction false} SortedSame<T(!new)>(le: (T, T) -> bool, s: seq<T>, t: seq<T>)
    requires Ordering(le) && Sorted(le, s) && Sorted(le, t)
    requires multiset(s) == multiset(t) && KeysDetermine(le, s)
    ensures s == t
  {
    if s == [] {
      assert |multiset(t)| == 0;
    } else {
      assert s[0] in multiset(s) && |multiset(t)| > 0;
      assert t[0] in multiset(t);
      HeadBelow(le, s, t[0]);
      HeadBelow(le, t, s[0]);
      assert Same(le, s[0], t[0]);
      WithoutHead(s);
      WithoutHead(t);
      hide Ordering, Sorted;
      TailSorted(le, s);
      TailSorted(le, t);
      assert forall a :: a in s[1..] ==> a in s;
      SortedSame(le, s[1..], t[1..]);
    }
  }

  lemma HeadBelow<T(!new)>(le: (T, T) -> bool, s: seq<T>, a: T)
    requires Ordering(le) && Sorted(le, s) && a in s
    ensures le(s[0], a)
  {
    var i :| 0 <= i < |s| && s[i] == a;
    assert le(s[0], s[0]);
  }

  lemma TailSorted<T>(le: (T, T) -> bool, s: seq<T>)
    requires Sorted(le, s) && s != []
    ensures Sorted(le, s[1..])
  {
  }

  lemma WithoutHead<T>(s: seq<T>)
    requires s != []
    ensures s == [s[0]] + s[1..] && multiset(s[1..]) == multiset(s) - multiset{s[0]}
  {
    assert s == [s[0]] + s[1..];
  }

  /** With keys that tell entries apart, sorting forgets the original order. */
  lemma SortForgetsOrder<T(!new)>(le: (T, T) -> bool, s: seq<T>, t: seq<T>)
    requires Ordering(le) && multiset(s) == multiset(t) && KeysDetermine(le, s)
    ensures Sort(le, s) == Sort(le, t)
  {
    SortIsStable(le, s);
    SortIsStable(le, t);
    assert forall a :: a in Sort(le, s) ==> a in multiset(Sort(le, s));
    SortedSame(le, Sort(le, s), Sort(le, t));
  }

  lemma TwoOrders<T(!new)>(le: (T, T) -> bool, a: T, b: T, rest: seq<T>)
    requires Ordering(le) && Same(le, a, b) && a != b
    ensures Sort(le, [a, b] + rest) != Sort(le, [b, a] + rest)
  {
    var t, u := [a, b] + rest, [b, a] + rest;
    SortIsStable(le, t);
    SortIsStable(le, u);
    ClassHead(le, t);
    assert Class(le, a, t)[0] == a;
    assert Class(le, a, u) == [b] + Class(le, a, u[1..]);
    assert Class(le, a, u)[0] == b;
  }

  lemma TwoAhead<T>(a: T, b: T, rest: seq<T>)
    ensures multiset([a, b] + rest) == multiset{a} + multiset{b} + multiset(rest)
  {
    assert [a, b] + rest == [a] + ([b] + rest);
  }

  lemma TakeTwo<T>(s: seq<T>, a: T, b: T) returns (rest: seq<T>)
    requires a in s && b in s && a != b
    ensures multiset([a, b] + rest) == multiset(s) && multiset([b, a] + rest) == multiset(s)
  {
    WithoutOne(s, a);
    assert b in multiset(Without(s, a));
    WithoutOne(Without(s, a), b);
    rest := Without(Without(s, a), b);
    hide Without;
    TwoAhead(a, b, rest);
    TwoAhead(b, a, rest);
  }

  lemma OrderSeen<T(!new)>(le: (T, T) -> bool, s: seq<T>) returns (t: seq<T>)
    requires Ordering(le) && !KeysDetermine(le, s)
    ensures multiset(t) == multiset(s) && Sort(le, t) != Sort(le, s)
  {
    var a, b :| a in s && b in s && Same(le, a, b) && a != b;
    var rest := TakeTwo(s, a, b);
    hide Sort;
    TwoOrders(le, a, b, rest);
    t := if Sort(le, [a, b] + rest) == Sort(le, s) then [b, a] + rest else [a, b] + rest;
  }

  /** Exactly those: two different entries with one key are always seen in some
      order that sorts differently. */
  lemma SortForgetsOrderIff<T(!new)>(le: (T, T) -> bool, s: seq<T>)
    requires Ordering(le)
    ensures (forall t :: multiset(t) == multiset(s) ==> Sort(le, t) == Sort(le, s)) <==> KeysDetermine(le, s)
  {
    if KeysDetermine(le, s) {
      forall t | multiset(t) == multiset(s)
        ensures Sort(le, t) == Sort(le, s)
      {
        SortForgetsOrder(le, s, t);
      }
    } else {
      var t := OrderSeen(le, s);
    }
  }

  /** `s` without the first `x`. */
  ghost function Without<T>(s: seq<T>, x: T): seq<T> {
    if s == [] then [] else if s[0] == x then s[1..] else [s[0]] + Without(s[1..], x)
  }

  lemma {:induction false} WithoutOne<T>(s: seq<T>, x: T)
    requires x in s
    ensures multiset(Without(s, x)) == multiset(s) - multiset{x}
  {
    assert s == [s[0]] + s[1..];
    if s[0] != x {
      WithoutOne(s[1..], x);
    }
  }

  // ---------------------------------------------------------------- mapping

  function Map<A, B>(f: A -> B, s: seq<A>): (r: seq<B>)
    ensures |r| == |s|
    ensures forall i :: 0 <= i < |s| ==> r[i] == f(s[i])
  {
    seq(|s|, i requires 0 <= i < |s| => f(s[i]))
  }

  lemma MapCons<A, B>(f: A -> B, s: seq<A>)
    requires s != []
    ensures Map(f, s) == [f(s[0])] + Map(f, s[1..])
  {
  }

  lemma {:induction false} InsertMap<A(!new), B(!new)>(
    f: A -> B, le: (A, A) -> bool, le': (B, B) -> bool, x: A, s: seq<A>)
    requires forall a, b :: le'(f(a), f(b)) == le(a, b)
    ensures Map(f, Insert(le, x, s)) == Insert(le', f(x), Map(f, s))
  {
    if s != [] {
      MapCons(f, s);
      if le(x, s[0]) {
        MapCons(f, [x] + s);
        assert ([x] + s)[1..] == s;
      } else {
        InsertMap(f, le, le', x, s[1..]);
        var r := [s[0]] + Insert(le, x, s[1..]);
        MapCons(f, r);
        assert r[1..] == Insert(le, x, s[1..]);
        assert Map(f, s)[1..] == Map(f, s[1..]);
      }
    }
  }

  /** A change of the entries that leaves their keys alone commutes with sorting. */
  lemma {:induction false} SortMap<A(!new), B(!new)>(f: A -> B, le: (A, A) -> bool, le': (B, B) -> bool, s: seq<A>)
    requires forall a, b :: le'(f(a), f(b)) == le(a, b)
    ensures Map(f, Sort(le, s)) == Sort(le', Map(f, s))
  {
    if s != [] {
      SortMap(f, le, le', s[1..]);
      InsertMap(f, le, le', s[0], Sort(le, s[1..]));
      MapCons(f, s);
      assert Map(f, s)[1..] == Map(f, s[1..]);
    }
  }

  function Removed<A>(s: seq<A>, j: nat): seq<A>
    requires j < |s|
  {
    s[..j] + s[j + 1..]
  }

  lemma RemovedOne<A>(s: seq<A>, j: nat)
    requires j < |s|
    ensures multiset(s) == multiset(Removed(s, j)) + multiset{s[j]}
  {
    assert s == s[..j] + [s[j]] + s[j + 1..];
  }

  lemma RemovedMembers<A>(s: seq<A>, j: nat)
    requires j < |s|
    ensures |Removed(s, j)| == |s| - 1 && forall x :: x in Removed(s, j) ==> x in s
  {
  }

  lemma MapRemoved<A, B>(f: A -> B, s: seq<A>, j: nat)
    requires j < |s|
    ensures Map(f, Removed(s, j)) == Removed(Map(f, s), j)
    ensures multiset(Map(f, s)) == multiset(Map(f, Removed(s, j))) + multiset{f(s[j])}
  {
    RemovedOne(Map(f, s), j);
  }

  /** If the entries of `s` and `t` agree under `f` as multisets, and `f` decides
      `g` on them, they agree under `g`. */
  lemma {:induction false} MapMultiset<A(!new), B(!new), C>(f: A -> B, g: A -> C, s: seq<A>, t: seq<A>)
    requires multiset(Map(f, s)) == multiset(Map(f, t))
    requires forall a, b :: a in s && b in t && f(a) == f(b) ==> g(a) == g(b)
    ensures multiset(Map(g, s)) == multiset(Map(g, t))
    decreases |s|
  {
    if s == [] {
      assert |multiset(Map(f, t))| == 0;
    } else {
      assert Map(f, s)[0] in multiset(Map(f, s));
      assert f(s[0]) in Map(f, t);
      var j :| 0 <= j < |t| && Map(f, t)[j] == f(s[0]);
      MapRemoved(f, s, 0);
      MapRemoved(f, t, j);
      MapRemoved(g, s, 0);
      MapRemoved(g, t, j);
      assert s[0] in s && t[j] in t;
      RemovedMembers(s, 0);
      RemovedMembers(t, j);
      assert multiset(Map(f, Removed(s, 0))) == multiset(Map(f, s)) - multiset{f(s[0])};
      assert multiset(Map(f, Removed(t, j))) == multiset(Map(f, t)) - multiset{f(s[0])};
      MapMultiset(f, g, Removed(s, 0), Removed(t, j));
    }
  }

  lemma MultisetMap<A(!new), B>(f: A -> B, s: seq<A>, t: seq<A>)
    requires multiset(s) == multiset(t)
    ensures multiset(Map(f, s)) == multiset(Map(f, t))
  {
    var id := (a: A) => a;
    assert Map(id, s) == s && Map(id, t) == t;
    MapMultiset(id, f, s, t);
  }
}
