/**
 The redaction of logged JSON bodies and the capped capture buffer of
 internal/api/api_call_log_middleware.go.
*/
module Redaction {
  import opened Wrappers

  // ---------------------------------------------------------------- redaction

  datatype Json =
    | Null
    | Bool(b: bool)
    | Number(text: string)
    | Str(s: string)
    | Arr(items: seq<Json>)
    | Obj(fields: map<string, Json>)

  const REDACTED := Str("REDACTED")

  /** `redactValue`; `secret` stands for the key pattern. */
  function Redact(v: Json, secret: string -> bool): Json {
    match v
    case Obj(fields) =>
      Obj(map k | k in fields :: if secret(k) then REDACTED else Redact(fields[k], secret))
    case Arr(items) =>
      Arr(seq(|items|, i requires 0 <= i < |items| => Redact(items[i], secret)))
    case _ => v
  }

  // ---------------------------------------------------------------- paths

  datatype Hop = Key(key: string) | Index(index: nat)

  /** The value at the end of a path, if the path is there. */
  function At(v: Json, path: seq<Hop>): Option<Json> {
    if path == [] then Some(v)
    else match (v, path[0])
      case (Obj(fields), Key(k)) => if k in fields then At(fields[k], path[1..]) else None
      case (Arr(items), Index(i)) => if i < |items| then At(items[i], path[1..]) else None
      case _ => None
  }

  predicate Matches(hop: Hop, secret: string -> bool) {
    hop.Key? && secret(hop.key)
  }

  predicate Clear(path: seq<Hop>, secret: string -> bool) {
    forall i :: 0 <= i < |path| ==> !Matches(path[i], secret)
  }

  /** Along keys that do not match, every path leads where it led, to the redacted
      value; a path that was not there is not there. */
  lemma {:induction false} ClearPaths(v: Json, path: seq<Hop>, secret: string -> bool)
    requires Clear(path, secret)
    ensures At(Redact(v, secret), path) ==
      match At(v, path) case None => None case Some(x) => Some(Redact(x, secret))
    decreases path
  {
    if path != [] {
      assert !Matches(path[0], secret);
      var rest := path[1..];
      assert Clear(rest, secret);
      match (v, path[0])
      case (Obj(fields), Key(k)) =>
        if k in fields {
          ClearPaths(fields[k], rest, secret);
        }
      case (Arr(items), Index(i)) =>
        if i < |items| {
          ClearPaths(items[i], rest, secret);
        }
      case _ =>
    }
  }

  lemma {:induction false} AtJoin(v: Json, a: seq<Hop>, b: seq<Hop>)
    ensures At(v, a + b) == match At(v, a) case None => None case Some(x) => At(x, b)
    decreases a
  {
    if a == [] {
      assert a + b == b;
    } else {
      assert (a + b)[1..] == a[1..] + b;
      match (v, a[0])
      case (Obj(fields), Key(k)) =>
        if k in fields {
          AtJoin(fields[k], a[1..], b);
        }
      case (Arr(items), Index(i)) =>
        if i < |items| {
          AtJoin(items[i], a[1..], b);
        }
      case _ =>
    }
  }

  /** At any depth, what stands under the first matching key of a path is the literal,
      and nothing can be reached below it. */
  lemma MatchingKeys(v: Json, path: seq<Hop>, k: string, below: seq<Hop>, secret: string -> bool)
    requires Clear(path, secret) && secret(k)
    ensures At(v, path + [Key(k)]).Some? <==> At(Redact(v, secret), path + [Key(k)]) == Some(Str("REDACTED"))
    ensures At(v, path + [Key(k)]) == None <==> At(Redact(v, secret), path + [Key(k)]) == None
    ensures below != [] ==> At(Redact(v, secret), path + [Key(k)] + below) == None
  {
    ClearPaths(v, path, secret);
    AtJoin(v, path, [Key(k)]);
    AtJoin(Redact(v, secret), path, [Key(k)]);
    AtJoin(Redact(v, secret), path + [Key(k)], below);
    assert [Key(k)][1..] == [];
    if At(v, path).Some? {
      OneKey(At(v, path).value, k);
      OneKey(Redact(At(v, path).value, secret), k);
    }
  }

  lemma OneKey(v: Json, k: string)
    ensures At(v, [Key(k)]) == if v.Obj? && k in v.fields then Some(v.fields[k]) else None
  {
    assert [Key(k)][1..] == [];
  }

  /** Equal leaves, arrays of one length, objects with the same keys and the literal
      under those that match. */
  predicate Redacts(x: Json, y: Json, secret: string -> bool) {
    match (x, y)
    case (Obj(f), Obj(g)) => f.Keys == g.Keys && forall k :: k in f && secret(k) ==> g[k] == REDACTED
    case (Arr(a), Arr(b)) => |a| == |b|
    case _ => x == y && !x.Obj? && !x.Arr?
  }

  /** `w` has the shape of `v` at the end of this path. */
  predicate RedactsAt(v: Json, w: Json, path: seq<Hop>, secret: string -> bool) {
    match (At(v, path), At(w, path))
    case (None, None) => true
    case (Some(x), Some(y)) => Redacts(x, y, secret)
    case _ => false
  }

  ghost predicate RedactsEverywhere(v: Json, w: Json, secret: string -> bool) {
    forall path :: Clear(path, secret) ==> RedactsAt(v, w, path, secret)
  }

  lemma BelowHop(v: Json, w: Json, hop: Hop, secret: string -> bool)
    requires RedactsEverywhere(v, w, secret) && !Matches(hop, secret)
    requires At(v, [hop]).Some? && At(w, [hop]).Some?
    ensures RedactsEverywhere(At(v, [hop]).value, At(w, [hop]).value, secret)
  {
    hide At;
    forall path | Clear(path, secret)
      ensures RedactsAt(At(v, [hop]).value, At(w, [hop]).value, path, secret)
    {
      AtJoin(v, [hop], path);
      AtJoin(w, [hop], path);
      assert Clear([hop] + path, secret);
      assert RedactsAt(v, w, [hop] + path, secret);
    }
  }

  lemma OneIndex(v: Json, i: nat)
    ensures At(v, [Index(i)]) == if v.Arr? && i < |v.items| then Some(v.items[i]) else None
  {
    assert [Index(i)][1..] == [];
  }

  /** Lengths, key sets and leaves are kept at every clear path and matching keys hold
      the literal: the redacted value is the only one of which that is true. */
  lemma {:induction false} RedactedIsDetermined(v: Json, w: Json, secret: string -> bool)
    ensures RedactsEverywhere(v, w, secret) <==> w == Redact(v, secret)
    decreases v
  {
    if w == Redact(v, secret) {
      forall path | Clear(path, secret)
        ensures RedactsAt(v, w, path, secret)
      {
        ClearPaths(v, path, secret);
      }
    }
    if RedactsEverywhere(v, w, secret) {
      assert Clear([], secret);
      assert RedactsAt(v, w, [], secret);
      match v
      case Obj(fields) =>
        forall k | k in fields && !secret(k)
          ensures w.fields[k] == Redact(fields[k], secret)
        {
          OneKey(v, k);
          OneKey(w, k);
          BelowHop(v, w, Key(k), secret);
          RedactedIsDetermined(fields[k], w.fields[k], secret);
        }
      case Arr(items) =>
        forall i | 0 <= i < |items|
          ensures w.items[i] == Redact(items[i], secret)
        {
          OneIndex(v, i);
          OneIndex(w, i);
          BelowHop(v, w, Index(i), secret);
          RedactedIsDetermined(items[i], w.items[i], secret);
        }
      case _ =>
    }
  }

  /** Redacting twice is redacting once. */
  lemma {:induction false} RedactTwice(v: Json, secret: string -> bool)
    ensures Redact(Redact(v, secret), secret) == Redact(v, secret)
    decreases v
  {
    match v
    case Obj(fields) =>
      forall k | k in fields ensures Redact(Redact(fields[k], secret), secret) == Redact(fields[k], secret) {
        RedactTwice(fields[k], secret);
      }
    case Arr(items) =>
      forall i | 0 <= i < |items| ensures Redact(Redact(items[i], secret), secret) == Redact(items[i], secret) {
        RedactTwice(items[i], secret);
      }
    case _ =>
  }

  /** Equal but for what stands under matching keys. */
  predicate Alike(v: Json, w: Json, secret: string -> bool)
    decreases v
  {
    match (v, w)
    case (Obj(f), Obj(g)) =>
      f.Keys == g.Keys && forall k :: k in f ==> secret(k) || Alike(f[k], g[k], secret)
    case (Arr(a), Arr(b)) =>
      |a| == |b| && forall i :: 0 <= i < |a| ==> Alike(a[i], b[i], secret)
    case _ => v == w
  }

  /** The redacted value tells exactly what stands outside matching keys: two values
      redact to the same one if and only if they differ under such keys alone. */
  lemma {:induction false} RedactedTellsNoMore(v: Json, w: Json, secret: string -> bool)
    ensures Redact(v, secret) == Redact(w, secret) <==> Alike(v, w, secret)
    decreases v
  {
    match (v, w)
    case (Obj(f), Obj(g)) =>
      forall k | k in f && k in g
        ensures Redact(f[k], secret) == Redact(g[k], secret) <==> Alike(f[k], g[k], secret)
      {
        RedactedTellsNoMore(f[k], g[k], secret);
      }
      ObjectsEqual(f, g, secret);
    case (Arr(a), Arr(b)) =>
      forall i | 0 <= i < |a| && i < |b|
        ensures Redact(a[i], secret) == Redact(b[i], secret) <==> Alike(a[i], b[i], secret)
      {
        RedactedTellsNoMore(a[i], b[i], secret);
      }
      ArraysEqual(a, b, secret);
    case _ =>
  }

  lemma ObjectsEqual(f: map<string, Json>, g: map<string, Json>, secret: string -> bool)
    ensures Redact(Obj(f), secret) == Redact(Obj(g), secret) <==>
      f.Keys == g.Keys && forall k :: k in f && !secret(k) ==> Redact(f[k], secret) == Redact(g[k], secret)
  {
    var x, y := Redact(Obj(f), secret).fields, Redact(Obj(g), secret).fields;
    assert x.Keys == f.Keys && y.Keys == g.Keys;
    if x == y {
      forall k | k in f && !secret(k) ensures Redact(f[k], secret) == Redact(g[k], secret) {
        assert x[k] == y[k];
      }
    }
  }

  lemma ArraysEqual(a: seq<Json>, b: seq<Json>, secret: string -> bool)
    ensures Redact(Arr(a), secret) == Redact(Arr(b), secret) <==>
      |a| == |b| && forall i :: 0 <= i < |a| ==> Redact(a[i], secret) == Redact(b[i], secret)
  {
    var x, y := Redact(Arr(a), secret).items, Redact(Arr(b), secret).items;
    if x == y {
      forall i | 0 <= i < |a| ensures Redact(a[i], secret) == Redact(b[i], secret) {
        assert x[i] == y[i];
      }
    }
  }

  // ---------------------------------------------------------------- the capped buffer

  type Bytes = seq<bv8>

  function Joined(writes: seq<Bytes>): Bytes {
    if writes == [] then [] else Joined(writes[..|writes| - 1]) + writes[|writes| - 1]
  }

  /** The first `cap` bytes. */
  function Capped(b: Bytes, cap: int): Bytes {
    if cap <= 0 then [] else if |b| <= cap then b else b[..cap]
  }

  /** How the flag stands after the writes: a write raises it when the buffer is full
      before it, or too small for it. */
  predicate Flag(writes: seq<Bytes>, cap: int) {
    writes != [] &&
    (Flag(writes[..|writes| - 1], cap)
     || |Joined(writes[..|writes| - 1])| >= cap
     || |Joined(writes)| > cap)
  }

  lemma OneWrite(writes: seq<Bytes>, p: Bytes, cap: int)
    ensures Joined(writes + [p]) == Joined(writes) + p
    ensures Flag(writes + [p], cap) <==> Flag(writes, cap) || |Joined(writes)| >= cap || |Joined(writes)| + |p| > cap
  {
    assert (writes + [p])[..|writes|] == writes;
  }

  class CappedBuffer {
    var buf: Bytes
    const cap: int
    var truncated: bool
    /** All writes so far. */
    ghost var writes: seq<Bytes>

    ghost predicate Valid()
      reads this
    {
      buf == Capped(Joined(writes), cap) && truncated == Flag(writes, cap)
    }

    constructor (cap: int)
      ensures Valid() && writes == [] && this.cap == cap
    {
      this.cap := cap;
      buf, truncated, writes := [], false, [];
    }

    method Write(p: Bytes) returns (n: int)
      requires Valid()
      modifies this
      ensures Valid() && writes == old(writes) + [p] && n == |p|
    {
      hide Joined, Flag;
      OneWrite(writes, p, cap);
      writes := writes + [p];
      var remaining := cap - |buf|;
      n := |p|;
      if remaining <= 0 {
        truncated := true;
        return;
      }
      if |p| > remaining {
        buf := buf + p[..remaining];
        truncated := true;
        return;
      }
      buf := buf + p;
    }
  }

  lemma {:induction false} JoinedGrows(writes: seq<Bytes>, i: nat)
    requires i <= |writes|
    ensures |Joined(writes[..i])| <= |Joined(writes)|
    decreases |writes|
  {
    if i == |writes| {
      assert writes[..i] == writes;
    } else {
      var k := |writes| - 1;
      JoinedGrows(writes[..k], i);
      assert writes[..k][..i] == writes[..i];
    }
  }

  /** An empty write that found the buffer full. */
  predicate EmptyWhenFull(writes: seq<Bytes>, cap: int, i: nat) {
    i < |writes| && writes[i] == [] && |Joined(writes[..i])| >= cap
  }

  lemma {:induction false} FlagByLength(writes: seq<Bytes>, cap: int)
    ensures Flag(writes, cap) <==>
      |Joined(writes)| > (if cap < 0 then 0 else cap) || exists i: nat :: EmptyWhenFull(writes, cap, i)
    decreases |writes|
  {
    if writes != [] {
      var k := |writes| - 1;
      var before := writes[..k];
      FlagByLength(before, cap);
      forall i: nat | i < k ensures EmptyWhenFull(writes, cap, i) <==> EmptyWhenFull(before, cap, i) {
        assert before[..i] == writes[..i];
      }
      if Flag(writes, cap) && |Joined(writes)| <= cap && !Flag(before, cap) {
        assert EmptyWhenFull(writes, cap, k);
      }
      if Flag(before, cap) && |Joined(before)| <= cap {
        var i: nat :| EmptyWhenFull(before, cap, i);
        assert EmptyWhenFull(writes, cap, i);
      }
      if EmptyWhenFull(writes, cap, k) {
        assert Flag(writes, cap);
      }
    }
  }

  /** Bytes were dropped just when the buffer does not hold all that was written. */
  lemma DroppedIff(writes: seq<Bytes>, cap: int)
    ensures Capped(Joined(writes), cap) != Joined(writes) <==> |Joined(writes)| > (if cap < 0 then 0 else cap)
    ensures Capped(Joined(writes), cap) <= Joined(writes)
  {
  }

  /** The flag is up exactly when a byte was dropped, as its comment says, or when an
      empty write came upon a full buffer, as it does not. */
  lemma FlagIff(writes: seq<Bytes>, cap: int)
    ensures Flag(writes, cap) <==>
      Capped(Joined(writes), cap) != Joined(writes) || exists i: nat :: EmptyWhenFull(writes, cap, i)
  {
    FlagByLength(writes, cap);
    DroppedIff(writes, cap);
  }

  /** Two writes, the second of them empty: the flag is up though every byte is there. */
  lemma EmptyWriteRaisesFlag(b: bv8)
    ensures Flag([[b], []], 1) && Capped(Joined([[b], []]), 1) == Joined([[b], []])
  {
    var ws: seq<Bytes> := [[b], []];
    assert ws[..1] == [[b]] && ws[..1][..0] == [];
    assert Joined([[b]]) == [] + [b];
  }
}
