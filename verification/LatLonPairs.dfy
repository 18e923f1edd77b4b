/**
 The pairing of latitude and longitude rows by cmd/pub-test-signal/main.go: an
 in-place pass over rows grouped by timestamp.
*/
module LatLonPairs {
  import opened Wrappers

  datatype Row = Row(signal: string, valueNum: string, valueStr: string, valueBool: string, createdAt: int)

  class Stats {
    var datumsEncoded: nat

    constructor ()
      ensures datumsEncoded == 0
    {
      datumsEncoded := 0;
    }
  }

  const LATITUDE := "Latitude"
  const LONGITUDE := "Longitude"

  predicate IsCoordinate(r: Row) {
    r.signal == LATITUDE || r.signal == LONGITUDE
  }

  // ---------------------------------------------------------------- one group

  /** The last row of the group with that signal. */
  function LastRow(g: seq<Row>, signal: string): (r: Option<Row>)
    ensures r.Some? ==> r.value in g && r.value.signal == signal
    ensures r == None <==> forall x :: x in g ==> x.signal != signal
  {
    if g == [] then None
    else if g[|g| - 1].signal == signal then Some(g[|g| - 1])
    else LastRow(g[..|g| - 1], signal)
  }

  /** The location row for a group, when its last latitude and its last longitude are
      both there and both numbers. `parse` stands for ParseFloat, and `marshal` for the
      marshalled pair (empty where marshalling fails, as the error is dropped). */
  function Location<N>(parse: string -> Option<N>, marshal: (N, N) -> string, g: seq<Row>): Option<Row> {
    match (LastRow(g, LATITUDE), LastRow(g, LONGITUDE))
    case (Some(lat), Some(lon)) =>
      (match (parse(lat.valueNum), parse(lon.valueNum))
       case (Some(x), Some(y)) => Some(Row("Location", "", marshal(x, y), "", lat.createdAt))
       case _ => None)
    case _ => None
  }

  function Blank(r: Row): Row {
    if IsCoordinate(r) then r.(signal := "") else r
  }

  function Blanked(g: seq<Row>): (r: seq<Row>)
    ensures |r| == |g|
  {
    seq(|g|, k requires 0 <= k < |g| => Blank(g[k]))
  }

  function Kept<N>(parse: string -> Option<N>, marshal: (N, N) -> string, g: seq<Row>): seq<Row> {
    if Location(parse, marshal, g).Some? then Blanked(g) else g
  }

  /** What becomes of a group. */
  function Paired<N>(parse: string -> Option<N>, marshal: (N, N) -> string, g: seq<Row>): seq<Row> {
    match Location(parse, marshal, g)
    case None => g
    case Some(loc) => [loc] + Blanked(g)
  }

  // ---------------------------------------------------------------- one group, row by row

  /** Row `i` is the last of the group with that signal. */
  predicate LastAt(g: seq<Row>, signal: string, i: nat) {
    i < |g| && g[i].signal == signal && forall j :: i < j < |g| ==> g[j].signal != signal
  }

  lemma {:induction false} LastRowIs(g: seq<Row>, signal: string, i: nat)
    requires LastAt(g, signal, i)
    ensures LastRow(g, signal) == Some(g[i])
    decreases g
  {
    if i < |g| - 1 {
      LastRowIs(g[..|g| - 1], signal, i);
    }
  }

  /** The same rows, but for the coordinates, which lose their signal. */
  predicate Consumed(g: seq<Row>, h: seq<Row>) {
    && |h| == |g|
    && forall k :: 0 <= k < |g| ==>
         && h[k].valueNum == g[k].valueNum && h[k].valueStr == g[k].valueStr
         && h[k].valueBool == g[k].valueBool && h[k].createdAt == g[k].createdAt
         && h[k].signal == if g[k].signal == "Latitude" || g[k].signal == "Longitude" then "" else g[k].signal
  }

  /** The row made of a latitude and a longitude, at the time of the latitude. */
  predicate IsLocation(r: Row, text: string, at: int) {
    r.signal == "Location" && r.valueNum == "" && r.valueStr == text && r.valueBool == "" && r.createdAt == at
  }

  /** What becomes of the rows of one timestamp: with a last latitude at `i` and a last
      longitude at `j` that both are numbers, a location row of the two and then the rows
      without their coordinates' signals; without, the rows as they are. */
  lemma PairedMeans<N>(parse: string -> Option<N>, marshal: (N, N) -> string, g: seq<Row>, i: nat, j: nat)
    requires LastAt(g, "Latitude", i) && LastAt(g, "Longitude", j)
    ensures var out, lat, lon := Paired(parse, marshal, g), parse(g[i].valueNum), parse(g[j].valueNum);
      if lat.Some? && lon.Some? then
        out != [] && IsLocation(out[0], marshal(lat.value, lon.value), g[i].createdAt) && Consumed(g, out[1..])
      else out == g
  {
    hide LastRow, LastAt, Blanked;
    LastRowIs(g, "Latitude", i);
    LastRowIs(g, "Longitude", j);
    BlankedConsumed(g);
    var out := Paired(parse, marshal, g);
    if Location(parse, marshal, g).Some? {
      assert out[1..] == Blanked(g);
    }
  }

  lemma BlankedConsumed(g: seq<Row>)
    ensures Consumed(g, Blanked(g))
  {
  }

  /** With a coordinate missing the rows stay as they are. */
  lemma UnpairedMeans<N>(parse: string -> Option<N>, marshal: (N, N) -> string, g: seq<Row>)
    requires (forall r :: r in g ==> r.signal != "Latitude") || (forall r :: r in g ==> r.signal != "Longitude")
    ensures Paired(parse, marshal, g) == g
  {
  }

  // ---------------------------------------------------------------- all groups

  /** The end of the run of rows that share the timestamp of row `i`, from `j` on. */
  function RunEnd(s: seq<Row>, i: nat, j: nat): (e: nat)
    requires i < j <= |s|
    ensures j <= e <= |s|
    ensures e < |s| ==> s[e].createdAt != s[i].createdAt
    ensures forall k :: j <= k < e ==> s[k].createdAt == s[i].createdAt
    decreases |s| - j
  {
    if j == |s| || s[j].createdAt != s[i].createdAt then j else RunEnd(s, i, j + 1)
  }

  function Out<N>(parse: string -> Option<N>, marshal: (N, N) -> string, s: seq<Row>, i: nat): seq<Row>
    requires i <= |s|
    decreases |s| - i
  {
    if i == |s| then []
    else var e := RunEnd(s, i, i + 1); Paired(parse, marshal, s[i..e]) + Out(parse, marshal, s, e)
  }

  function InPlace<N>(parse: string -> Option<N>, marshal: (N, N) -> string, s: seq<Row>, i: nat): seq<Row>
    requires i <= |s|
    decreases |s| - i
  {
    if i == |s| then []
    else var e := RunEnd(s, i, i + 1); Kept(parse, marshal, s[i..e]) + InPlace(parse, marshal, s, e)
  }

  function Pairs<N>(parse: string -> Option<N>, marshal: (N, N) -> string, s: seq<Row>, i: nat): nat
    requires i <= |s|
    decreases |s| - i
  {
    if i == |s| then 0
    else
      var e := RunEnd(s, i, i + 1);
      (if Location(parse, marshal, s[i..e]).Some? then 1 else 0) + Pairs(parse, marshal, s, e)
  }

  lemma {:induction false} RunEndIs(s: seq<Row>, i: nat, j: nat, e: nat)
    requires i < j <= e <= |s| && forall k :: j <= k < e ==> s[k].createdAt == s[i].createdAt
    requires e < |s| ==> s[e].createdAt != s[i].createdAt
    ensures RunEnd(s, i, j) == e
    decreases e - j
  {
    if j < e {
      RunEndIs(s, i, j + 1, e);
    }
  }

  /** The first pass over a group: the last row of each kind. */
  method LastRows(rows: array<Row>, a: nat, b: nat) returns (lat: Option<Row>, lon: Option<Row>)
    requires a <= b <= rows.Length
    ensures lat == LastRow(rows[a..b], LATITUDE) && lon == LastRow(rows[a..b], LONGITUDE)
  {
    lat, lon := None, None;
    for j := a to b
      invariant lat == LastRow(rows[a..j], LATITUDE) && lon == LastRow(rows[a..j], LONGITUDE)
    {
      assert rows[a..j + 1][..j - a] == rows[a..j];
      Signals();
      if rows[j].signal == LATITUDE {
        lat := Some(rows[j]);
      } else if rows[j].signal == LONGITUDE {
        lon := Some(rows[j]);
      }
    }
  }

  /** The second pass over a group: its coordinates lose their signal. */
  method BlankRows(rows: array<Row>, a: nat, b: nat)
    requires a <= b <= rows.Length
    modifies rows
    ensures rows[a..b] == Blanked(old(rows[a..b]))
    ensures rows[..a] == old(rows[..a]) && rows[b..] == old(rows[b..])
  {
    for j := a to b
      invariant forall k :: 0 <= k < a || j <= k < rows.Length ==> rows[k] == old(rows[k])
      invariant forall k :: a <= k < j ==> rows[k] == Blank(old(rows[k]))
    {
      if rows[j].signal == LATITUDE || rows[j].signal == LONGITUDE {
        rows[j] := rows[j].(signal := "");
      }
    }
  }

  /** One group: the location row, if it has one, with the coordinates then blanked. */
  method PairGroup<N>(rows: array<Row>, a: nat, b: nat, parse: string -> Option<N>, marshal: (N, N) -> string)
    returns (loc: Option<Row>)
    requires a <= b <= rows.Length
    modifies rows
    ensures loc == Location(parse, marshal, old(rows[a..b]))
    ensures rows[a..b] == Kept(parse, marshal, old(rows[a..b]))
    ensures rows[..a] == old(rows[..a]) && rows[b..] == old(rows[b..])
  {
    hide LastRow, Blanked;
    var latRow, lonRow := LastRows(rows, a, b);
    if latRow.Some? && lonRow.Some? {
      var lat, lon := parse(latRow.value.valueNum), parse(lonRow.value.valueNum);
      if lat.Some? && lon.Some? {
        loc := Some(Row("Location", "", marshal(lat.value, lon.value), "", latRow.value.createdAt));
        BlankRows(rows, a, b);
        return;
      }
    }
    loc := None;
  }

  lemma Signals()
    ensures LATITUDE != LONGITUDE && LATITUDE != "" && LONGITUDE != ""
    ensures LATITUDE != "Location" && LONGITUDE != "Location"
  {
    assert LATITUDE[1] == 'a' && LONGITUDE[1] == 'o';
  }

  /** One group of the specification. */
  lemma Unroll<N>(parse: string -> Option<N>, marshal: (N, N) -> string, s: seq<Row>, i: nat, e: nat)
    requires i < e <= |s| && RunEnd(s, i, i + 1) == e
    ensures var g := s[i..e]; var loc := Location(parse, marshal, g);
      && Out(parse, marshal, s, i) ==
           (if loc.Some? then [loc.value] else []) + Kept(parse, marshal, g) + Out(parse, marshal, s, e)
      && InPlace(parse, marshal, s, i) == Kept(parse, marshal, g) + InPlace(parse, marshal, s, e)
      && Pairs(parse, marshal, s, i) == (if loc.Some? then 1 else 0) + Pairs(parse, marshal, s, e)
  {
    hide Location, RunEnd, Blanked;
    assert [] + s[i..e] == s[i..e];
  }

  lemma Ended<N>(parse: string -> Option<N>, marshal: (N, N) -> string, s: seq<Row>)
    ensures Out(parse, marshal, s, |s|) == [] && InPlace(parse, marshal, s, |s|) == []
    ensures Pairs(parse, marshal, s, |s|) == 0
  {
  }

  /** What has been done when the groups before `i` are finished. */
  ghost predicate DoneTo<N>(
    parse: string -> Option<N>, marshal: (N, N) -> string, s: seq<Row>, i: nat,
    out: seq<Row>, rows: seq<Row>, pairs: nat)
  {
    && i <= |s| == |rows| && rows[i..] == s[i..]
    && out + Out(parse, marshal, s, i) == Out(parse, marshal, s, 0)
    && rows[..i] + InPlace(parse, marshal, s, i) == InPlace(parse, marshal, s, 0)
    && pairs + Pairs(parse, marshal, s, i) == Pairs(parse, marshal, s, 0)
  }

  lemma DoneNext<N>(
    parse: string -> Option<N>, marshal: (N, N) -> string, s: seq<Row>, i: nat, e: nat,
    out: seq<Row>, rows: seq<Row>, rows': seq<Row>, pairs: nat)
    requires i < e <= |s| && RunEnd(s, i, i + 1) == e && DoneTo(parse, marshal, s, i, out, rows, pairs)
    requires |rows'| == |s| && rows'[..i] == rows[..i] && rows'[e..] == s[e..]
    requires rows'[i..e] == Kept(parse, marshal, s[i..e])
    ensures var loc := Location(parse, marshal, s[i..e]);
      DoneTo(parse, marshal, s, e, out + (if loc.Some? then [loc.value] else []) + rows'[i..e], rows',
             pairs + if loc.Some? then 1 else 0)
  {
    hide Location, Kept, Out, InPlace, Pairs, RunEnd;
    Unroll(parse, marshal, s, i, e);
    assert rows'[..e] == rows'[..i] + rows'[i..e];
    var loc := Location(parse, marshal, s[i..e]);
    Shift3(out, if loc.Some? then [loc.value] else [], rows'[i..e], Out(parse, marshal, s, e));
    Shift3(rows'[..i], rows'[i..e], [], InPlace(parse, marshal, s, e));
  }

  lemma Shift3<T>(a: seq<T>, b: seq<T>, c: seq<T>, d: seq<T>)
    ensures a + (b + c + d) == (a + b + c) + d
    ensures c == [] ==> a + (b + d) == (a + b) + d
  {
  }

  /** `pairLatLonRows` */
  method PairLatLonRows<N>(rows: array<Row>, stats: Stats, parse: string -> Option<N>, marshal: (N, N) -> string)
    returns (out: seq<Row>)
    modifies rows, stats
    ensures out == Out(parse, marshal, old(rows[..]), 0)
    ensures rows[..] == InPlace(parse, marshal, old(rows[..]), 0)
    ensures stats.datumsEncoded == old(stats.datumsEncoded) + Pairs(parse, marshal, old(rows[..]), 0)
  {
    hide Location, Kept, Out, InPlace, Pairs, DoneTo, RunEnd;
    ghost var s := rows[..];
    Ended(parse, marshal, s);
    if rows.Length == 0 {
      return rows[..];
    }
    out := [];
    var groupStart := 0;
    var i := 1;
    ghost var pairs := 0;
    NothingDone(parse, marshal, s);
    while i <= rows.Length
      invariant 0 <= groupStart < i <= |s| + 1 && |s| == rows.Length
      invariant if i <= |s| then groupStart < |s| else groupStart == |s|
      invariant i <= |s| ==> forall k :: groupStart <= k < i ==> s[k].createdAt == s[groupStart].createdAt
      invariant rows[groupStart..] == s[groupStart..]
      invariant DoneTo(parse, marshal, s, groupStart, out, rows[..], pairs)
      invariant stats.datumsEncoded == old(stats.datumsEncoded) + pairs
    {
      assert rows[groupStart] == s[groupStart..][0];
      assert i < |s| ==> rows[i] == s[groupStart..][i - groupStart];
      if i < rows.Length && rows[i].createdAt == rows[groupStart].createdAt {
        i := i + 1;
        continue;
      }
      RunEndIs(s, groupStart, groupStart + 1, i);
      ghost var was := rows[..];
      Middle(was, s, groupStart, i);
      var loc := PairGroup(rows, groupStart, i, parse, marshal);
      DoneNext(parse, marshal, s, groupStart, i, out, was, rows[..], pairs);
      if loc.Some? {
        out := out + [loc.value];
        stats.datumsEncoded := stats.datumsEncoded + 1;
        pairs := pairs + 1;
      } else {
        assert out + [] == out;
      }
      out := out + rows[groupStart..i];
      groupStart := i;
      i := i + 1;
    }
    AllDone(parse, marshal, s, out, rows[..], pairs);
  }

  lemma Middle(was: seq<Row>, s: seq<Row>, a: nat, b: nat)
    requires a <= b <= |s| == |was| && was[a..] == s[a..]
    ensures was[a..b] == s[a..b] && was[b..] == s[b..]
  {
    assert was[a..b] == was[a..][..b - a];
    assert was[b..] == was[a..][b - a..];
  }

  lemma NothingDone<N>(parse: string -> Option<N>, marshal: (N, N) -> string, s: seq<Row>)
    ensures DoneTo(parse, marshal, s, 0, [], s, 0)
  {
    hide Out, InPlace, Pairs;
    assert s[..0] == [] && s[0..] == s;
  }

  lemma AllDone<N>(
    parse: string -> Option<N>, marshal: (N, N) -> string, s: seq<Row>, out: seq<Row>, rows: seq<Row>, pairs: nat)
    requires DoneTo(parse, marshal, s, |s|, out, rows, pairs)
    ensures out == Out(parse, marshal, s, 0) && rows == InPlace(parse, marshal, s, 0)
    ensures pairs == Pairs(parse, marshal, s, 0)
  {
    hide Out, InPlace, Pairs;
    Ended(parse, marshal, s);
    assert rows[..|s|] == rows;
    assert out + [] == out && rows + [] == rows;
  }

  // ---------------------------------------------------------------- what the pass does

  predicate Sorted(s: seq<Row>) {
    forall i, j :: 0 <= i < j < |s| ==> s[i].createdAt <= s[j].createdAt
  }

  /** The rows of one timestamp, in order. */
  function At(s: seq<Row>, t: int): seq<Row> {
    if s == [] then [] else (if s[0].createdAt == t then [s[0]] else []) + At(s[1..], t)
  }

  predicate AllAt(s: seq<Row>, t: int) {
    forall r :: r in s ==> r.createdAt == t
  }

  lemma {:induction false} AtJoin(a: seq<Row>, b: seq<Row>, t: int)
    ensures At(a + b, t) == At(a, t) + At(b, t)
    decreases a
  {
    if a == [] {
      assert a + b == b;
    } else {
      assert (a + b)[1..] == a[1..] + b;
      AtJoin(a[1..], b, t);
      var first := if a[0].createdAt == t then [a[0]] else [];
      assert first + (At(a[1..], t) + At(b, t)) == (first + At(a[1..], t)) + At(b, t);
    }
  }

  lemma {:induction false} AtWhole(s: seq<Row>, t: int)
    requires AllAt(s, t)
    ensures At(s, t) == s
    decreases s
  {
    if s != [] {
      assert s[0] in s;
      assert forall r :: r in s[1..] ==> r in s;
      AtWhole(s[1..], t);
    }
  }

  lemma {:induction false} AtNothing(s: seq<Row>, t: int)
    requires forall r :: r in s ==> r.createdAt != t
    ensures At(s, t) == []
    decreases s
  {
    if s != [] {
      assert s[0] in s;
      assert forall r :: r in s[1..] ==> r in s;
      AtNothing(s[1..], t);
    }
  }

  lemma PairedTimes<N>(parse: string -> Option<N>, marshal: (N, N) -> string, g: seq<Row>, t: int)
    requires AllAt(g, t)
    ensures AllAt(Paired(parse, marshal, g), t) && Paired(parse, marshal, []) == []
  {
    hide LastRow;
    assert forall k :: 0 <= k < |g| ==> g[k] in g;
    var b := Blanked(g);
    assert forall k :: 0 <= k < |b| ==> b[k].createdAt == g[k].createdAt;
  }

  lemma GroupSame(s: seq<Row>, i: nat)
    requires i < |s|
    ensures AllAt(s[i..RunEnd(s, i, i + 1)], s[i].createdAt)
  {
    hide RunEnd;
    var g := s[i..RunEnd(s, i, i + 1)];
    assert forall k :: 0 <= k < |g| ==> g[k] == s[i + k];
  }

  lemma LaterTimes(s: seq<Row>, i: nat, e: nat)
    requires i < e <= |s| && Sorted(s) && (e < |s| ==> s[e].createdAt != s[i].createdAt)
    ensures forall r :: r in s[e..] ==> r.createdAt > s[i].createdAt
  {
    var rest := s[e..];
    forall k | 0 <= k < |rest| ensures rest[k].createdAt > s[i].createdAt {
      assert rest[k] == s[e + k] && s[i].createdAt <= s[e].createdAt;
      assert k > 0 ==> s[e].createdAt <= s[e + k].createdAt;
    }
  }

  lemma GroupTimes(s: seq<Row>, i: nat)
    requires i < |s|
    ensures var e := RunEnd(s, i, i + 1);
      && i < e <= |s| && AllAt(s[i..e], s[i].createdAt)
      && (Sorted(s) ==> forall r :: r in s[e..] ==> r.createdAt > s[i].createdAt)
  {
    hide RunEnd, AllAt, Sorted;
    GroupSame(s, i);
    if Sorted(s) {
      LaterTimes(s, i, RunEnd(s, i, i + 1));
    }
  }

  /** On time-sorted rows, the rows of each timestamp come out as their group paired: a
      location row at the head exactly when both coordinates are there and parse, the
      coordinates then blanked, and everything else as it was and in its order. */
  lemma {:induction false} EachTimestamp<N>(
    parse: string -> Option<N>, marshal: (N, N) -> string, s: seq<Row>, i: nat, t: int)
    requires i <= |s| && Sorted(s)
    ensures At(Out(parse, marshal, s, i), t) == Paired(parse, marshal, At(s[i..], t))
    decreases |s| - i
  {
    hide Location, RunEnd, Blanked, At;
    PairedTimes(parse, marshal, [], t);
    AtNothing([], t);
    if i == |s| {
      assert s[i..] == [];
    } else {
      var e, now := RunEnd(s, i, i + 1), s[i].createdAt;
      var g, rest := s[i..e], s[e..];
      GroupTimes(s, i);
      assert s[i..] == g + rest;
      AtJoin(g, rest, t);
      AtJoin(Paired(parse, marshal, g), Out(parse, marshal, s, e), t);
      EachTimestamp(parse, marshal, s, e, t);
      PairedTimes(parse, marshal, g, now);
      if t == now {
        AtWhole(g, t);
        AtWhole(Paired(parse, marshal, g), t);
        AtNothing(rest, t);
        assert g + [] == g && Paired(parse, marshal, g) + [] == Paired(parse, marshal, g);
      } else {
        AtNothing(g, t);
        AtNothing(Paired(parse, marshal, g), t);
        assert [] + At(rest, t) == At(rest, t);
      }
    }
  }

  /** One row more for every pair, on any rows. */
  lemma {:induction false} OutLength<N>(parse: string -> Option<N>, marshal: (N, N) -> string, s: seq<Row>, i: nat)
    requires i <= |s|
    ensures |Out(parse, marshal, s, i)| == |s| - i + Pairs(parse, marshal, s, i)
    ensures |InPlace(parse, marshal, s, i)| == |s| - i
    decreases |s| - i
  {
    hide Location, RunEnd;
    if i < |s| {
      OutLength(parse, marshal, s, RunEnd(s, i, i + 1));
    }
  }

  lemma {:induction false} OutLater<N>(parse: string -> Option<N>, marshal: (N, N) -> string, s: seq<Row>, i: nat)
    requires i <= |s| && Sorted(s)
    ensures Sorted(Out(parse, marshal, s, i))
    ensures i < |s| ==> forall r :: r in Out(parse, marshal, s, i) ==> r.createdAt >= s[i].createdAt
    decreases |s| - i
  {
    hide Location, RunEnd, Blanked, Paired;
    if i < |s| {
      var e := RunEnd(s, i, i + 1);
      GroupTimes(s, i);
      PairedTimes(parse, marshal, s[i..e], s[i].createdAt);
      OutLater(parse, marshal, s, e);
      SortedJoin(Paired(parse, marshal, s[i..e]), Out(parse, marshal, s, e), s[i].createdAt);
    }
  }

  lemma SortedJoin(a: seq<Row>, b: seq<Row>, t: int)
    requires AllAt(a, t) && Sorted(b) && forall r :: r in b ==> r.createdAt >= t
    ensures Sorted(a + b)
  {
    var c := a + b;
    forall i, j | 0 <= i < j < |c| ensures c[i].createdAt <= c[j].createdAt {
      if i < |a| {
        assert c[i] in a && (c[j] in a || c[j] in b);
      } else {
        assert c[i] == b[i - |a|] && c[j] == b[j - |a|];
      }
    }
  }

  /** The rows handed in change only where a group is paired, and there only the signal
      of its coordinates. */
  lemma {:induction false} InPlaceAt<N>(
    parse: string -> Option<N>, marshal: (N, N) -> string, s: seq<Row>, i: nat, k: nat)
    requires i <= k < |s| && Sorted(s)
    ensures |InPlace(parse, marshal, s, i)| == |s| - i
    ensures InPlace(parse, marshal, s, i)[k - i] ==
      if Location(parse, marshal, At(s[i..], s[k].createdAt)).Some? then Blank(s[k]) else s[k]
    decreases |s| - i
  {
    hide Location, RunEnd, At, InPlace, Out, Pairs, Sorted, AllAt, Blank;
    var e := RunEnd(s, i, i + 1);
    GroupTimes(s, i);
    Unroll(parse, marshal, s, i, e);
    OutLength(parse, marshal, s, i);
    OutLength(parse, marshal, s, e);
    AtGroup(s, i, e, k);
    KeptAt(parse, marshal, s[i..e]);
    if k >= e {
      InPlaceAt(parse, marshal, s, e, k);
    }
  }

  lemma KeptAt<N>(parse: string -> Option<N>, marshal: (N, N) -> string, g: seq<Row>)
    ensures |Kept(parse, marshal, g)| == |g|
    ensures forall j :: 0 <= j < |g| ==>
      Kept(parse, marshal, g)[j] == if Location(parse, marshal, g).Some? then Blank(g[j]) else g[j]
  {
  }

  /** The rows of a timestamp are all in its group. */
  lemma AtGroup(s: seq<Row>, i: nat, e: nat, k: nat)
    requires i <= k < |s| && i < e <= |s| && AllAt(s[i..e], s[i].createdAt)
    requires forall r :: r in s[e..] ==> r.createdAt > s[i].createdAt
    ensures At(s[i..], s[k].createdAt) == if k < e then s[i..e] else At(s[e..], s[k].createdAt)
  {
    hide At;
    var g, rest := s[i..e], s[e..];
    assert s[i..] == g + rest;
    AtJoin(g, rest, s[k].createdAt);
    if k < e {
      assert g[k - i] == s[k];
      AtWhole(g, s[k].createdAt);
      AtNothing(rest, s[k].createdAt);
      assert g + [] == g;
    } else {
      assert rest[k - e] == s[k];
      AtNothing(g, s[k].createdAt);
      assert [] + At(rest, s[k].createdAt) == At(rest, s[k].createdAt);
    }
  }
}
