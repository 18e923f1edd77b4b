/**
 The in-memory error tracker of internal/api/error_tracker.go: three maps of counters
 and a ring of recent errors, against the plain log of everything tracked.
*/
module ErrorTracking {
  import opened Wrappers

  datatype TrackedError = TrackedError(
    code: string, category: string, message: string, path: string, verb: string, requestId: string,
    status: int, timestamp: int)

  /** A slot of the ring that was never written; its time is zero. */
  const UNSET := TrackedError("", "", "", "", "", "", 0, 0)

  // ---------------------------------------------------------------- the log

  datatype Bucket = Bucket(count: nat, lastSeen: int, lastMsg: string)

  /** The buckets of a log, for one way to sort errors into buckets. */
  function Tally<K>(log: seq<TrackedError>, key: TrackedError -> K): map<K, Bucket> {
    if log == [] then map[]
    else
      var m, e := Tally(log[..|log| - 1], key), log[|log| - 1];
      Added(m, key(e), e.timestamp, e.message)
  }

  lemma TallyStep<K>(log: seq<TrackedError>, e: TrackedError, key: TrackedError -> K)
    ensures Tally(log + [e], key) == Added(Tally(log, key), key(e), e.timestamp, e.message)
  {
    assert (log + [e])[..|log|] == log;
  }

  function Added<K>(m: map<K, Bucket>, k: K, now: int, msg: string): map<K, Bucket> {
    m[k := Bucket((if k in m then m[k].count else 0) + 1, now, msg)]
  }

  /** The last `n` errors, newest first. */
  function Newest(log: seq<TrackedError>, n: nat): (r: seq<TrackedError>)
    requires n <= |log|
    ensures |r| == n
    ensures forall i :: 0 <= i < n ==> r[i] == log[|log| - 1 - i]
  {
    seq(n, i requires 0 <= i < n => log[|log| - 1 - i])
  }

  function Min(a: int, b: int): int {
    if a <= b then a else b
  }

  function Code(e: TrackedError): string { e.code }
  function Category(e: TrackedError): string { e.category }
  function Status(e: TrackedError): int { e.status }

  // ---------------------------------------------------------------- counters

  class ErrorCount {
    var count: int
    var lastSeen: int
    var lastMsg: string

    constructor ()
      ensures count == 0
    {
      count := 0;
      lastSeen := 0;
      lastMsg := "";
    }

    constructor Copied(c: ErrorCount)
      ensures count == c.count && lastSeen == c.lastSeen && lastMsg == c.lastMsg
    {
      count, lastSeen, lastMsg := c.count, c.lastSeen, c.lastMsg;
    }

    /** The counter stands for the bucket. */
    predicate Is(b: Bucket)
      reads this
    {
      count == b.count && lastSeen == b.lastSeen && lastMsg == b.lastMsg
    }
  }

  /** The counters hold the buckets, each bucket in a counter of its own. */
  ghost predicate Holds<K>(m: map<K, ErrorCount>, t: map<K, Bucket>)
    reads m.Values
  {
    && m.Keys == t.Keys
    && (forall k :: k in m ==> m[k].Is(t[k]))
    && (forall k, l :: k in m && l in m && k != l ==> m[k] != m[l])
  }

  /** Count one more error in bucket `k`, making the bucket if need be. */
  method Bump<K(==)>(m: map<K, ErrorCount>, k: K, now: int, msg: string, ghost t: map<K, Bucket>)
    returns (r: map<K, ErrorCount>)
    requires Holds(m, t)
    modifies m.Values
    ensures Holds(r, Added(t, k, now, msg))
    ensures forall v :: v in r.Values ==> v in m.Values || fresh(v)
  {
    r := m;
    if k !in r {
      var c := new ErrorCount();
      r := r[k := c];
    }
    var c := r[k];
    c.count := c.count + 1;
    c.lastSeen := now;
    c.lastMsg := msg;
  }

  /** A copy of the counters that shares none of them. */
  method Copy<K(==)>(m: map<K, ErrorCount>, ghost t: map<K, Bucket>) returns (r: map<K, ErrorCount>)
    requires Holds(m, t)
    ensures Holds(r, t) && forall v :: v in r.Values ==> fresh(v)
  {
    r := map[];
    var keys := m.Keys;
    while keys != {}
      invariant keys <= m.Keys && r.Keys == m.Keys - keys
      invariant forall k :: k in r ==> fresh(r[k])
      invariant forall k :: k in r ==> r[k].Is(t[k])
      invariant forall k, l :: k in r && l in r && k != l ==> r[k] != r[l]
      decreases keys
    {
      var k :| k in keys;
      var c := new ErrorCount.Copied(m[k]);
      r := r[k := c];
      keys := keys - {k};
    }
  }

  // ---------------------------------------------------------------- the tracker

  datatype ErrorStats = ErrorStats(
    totalErrors: int, byCode: map<string, ErrorCount>, byCategory: map<string, ErrorCount>,
    byStatus: map<int, ErrorCount>, recentErrors: seq<TrackedError>)

  class ErrorTracker {
    var codeCounts: map<string, ErrorCount>
    var catCounts: map<string, ErrorCount>
    var statusCounts: map<int, ErrorCount>
    const recentErrors: array<TrackedError>
    const maxRecent: int
    var writeIdx: int
    var totalErrors: int
    /** Everything tracked so far, oldest first. */
    ghost var log: seq<TrackedError>

    ghost function Counters(): set<ErrorCount>
      reads `codeCounts, `catCounts, `statusCounts
    {
      codeCounts.Values + catCounts.Values + statusCounts.Values
    }

    ghost predicate Apart()
      reads `codeCounts, `catCounts, `statusCounts
    {
      && codeCounts.Values !! catCounts.Values && codeCounts.Values !! statusCounts.Values
      && catCounts.Values !! statusCounts.Values
    }

    /** The maps are the tallies of the log, and the ring holds its end. */
    ghost predicate Valid()
      reads this, Counters(), recentErrors
    {
      && Counted(log, log, log)
      && totalErrors == |log|
      && maxRecent > 0 && recentErrors.Length == maxRecent
      && RingHolds(recentErrors[..], writeIdx, log)
      && forall e :: e in log ==> e.timestamp != 0
    }

    constructor (maxRecent: int)
      ensures Valid() && log == [] && fresh(recentErrors) && Counters() == {}
      ensures this.maxRecent == if maxRecent <= 0 then 100 else maxRecent
    {
      var n := if maxRecent <= 0 then 100 else maxRecent;
      this.maxRecent := n;
      codeCounts, catCounts, statusCounts := map[], map[], map[];
      recentErrors := new TrackedError[n](_ => UNSET);
      writeIdx, totalErrors := 0, 0;
      log := [];
    }

    /** The maps are the tallies of these logs. */
    ghost predicate Counted(codes: seq<TrackedError>, cats: seq<TrackedError>, statuses: seq<TrackedError>)
      reads `codeCounts, `catCounts, `statusCounts, Counters()
    {
      && Apart() && Holds(codeCounts, Tally(codes, Code)) && Holds(catCounts, Tally(cats, Category))
      && Holds(statusCounts, Tally(statuses, Status))
    }

    method CountCode(e: TrackedError)
      requires Counted(log, log, log)
      modifies `codeCounts, codeCounts.Values
      ensures Counted(log + [e], log, log)
      ensures forall v :: v in Counters() ==> v in old(Counters()) || fresh(v)
    {
      hide Holds, Tally, Added;
      TallyStep(log, e, Code);
      codeCounts := Bump(codeCounts, e.code, e.timestamp, e.message, Tally(log, Code));
    }

    method CountCategory(e: TrackedError)
      requires Counted(log + [e], log, log)
      modifies `catCounts, catCounts.Values
      ensures Counted(log + [e], log + [e], log)
      ensures forall v :: v in Counters() ==> v in old(Counters()) || fresh(v)
    {
      hide Holds, Tally, Added;
      TallyStep(log, e, Category);
      catCounts := Bump(catCounts, e.category, e.timestamp, e.message, Tally(log, Category));
    }

    method CountStatus(e: TrackedError)
      requires Counted(log + [e], log + [e], log)
      modifies `statusCounts, statusCounts.Values
      ensures Counted(log + [e], log + [e], log + [e])
      ensures forall v :: v in Counters() ==> v in old(Counters()) || fresh(v)
    {
      hide Holds, Tally, Added;
      TallyStep(log, e, Status);
      statusCounts := Bump(statusCounts, e.status, e.timestamp, e.message, Tally(log, Status));
    }

    /** The three counters of one error. */
    method CountError(e: TrackedError)
      requires Counted(log, log, log)
      modifies `codeCounts, `catCounts, `statusCounts, Counters()
      ensures Counted(log + [e], log + [e], log + [e])
      ensures forall v :: v in Counters() ==> v in old(Counters()) || fresh(v)
    {
      hide Counted, Apart;
      CountCode(e);
      CountCategory(e);
      CountStatus(e);
    }

    /** The error goes into the ring. */
    method Remember(e: TrackedError)
      requires maxRecent > 0 && recentErrors.Length == maxRecent && RingHolds(recentErrors[..], writeIdx, log)
      modifies `writeIdx, recentErrors
      ensures RingHolds(recentErrors[..], writeIdx, log + [e])
    {
      hide RingHolds;
      ghost var ring := recentErrors[..];
      RingStep(ring, writeIdx, log, e);
      recentErrors[writeIdx] := e;
      assert recentErrors[..] == ring[writeIdx := e];
      writeIdx := (writeIdx + 1) % maxRecent;
    }

    /** `Track`; the clock's reading is part of the error passed in. */
    method Track(e: TrackedError)
      requires Valid() && e.timestamp != 0
      modifies this, Counters(), recentErrors
      ensures Valid() && log == old(log) + [e]
      ensures forall v :: v in Counters() ==> v in old(Counters()) || fresh(v)
    {
      hide RingHolds, Counted, Apart;
      totalErrors := totalErrors + 1;
      CountError(e);
      label Counting:
      assert Counted(log + [e], log + [e], log + [e]);
      Remember(e);
      assert Counters() == old@Counting(Counters());
      assert forall c: ErrorCount :: c in Counters() ==> unchanged@Counting(c);
      assert Counted(log + [e], log + [e], log + [e]);
      log := log + [e];
      assert Counters() == old@Counting(Counters()) && Counted(log, log, log);
    }

    /** `Stats`, without the uptime. */
    method Stats() returns (s: ErrorStats)
      requires Valid()
      ensures s.totalErrors == |log|
      ensures Holds(s.byCode, Tally(log, Code)) && forall v :: v in s.byCode.Values ==> fresh(v)
      ensures Holds(s.byCategory, Tally(log, Category)) && forall v :: v in s.byCategory.Values ==> fresh(v)
      ensures Holds(s.byStatus, Tally(log, Status)) && forall v :: v in s.byStatus.Values ==> fresh(v)
      ensures s.recentErrors == Newest(log, Min(|log|, maxRecent))
    {
      hide Holds, Tally, RingHolds;
      var byCode := Copy(codeCounts, Tally(log, Code));
      var byCat := Copy(catCounts, Tally(log, Category));
      var byStatus := Copy(statusCounts, Tally(log, Status));
      var recent: seq<TrackedError> := [];
      var n := totalErrors;
      if n > maxRecent {
        n := maxRecent;
      }
      for i := 0 to n
        invariant recent == Newest(log, n)[..i]
        modifies {}
      {
        var idx := (writeIdx - 1 - i + maxRecent) % maxRecent;
        RingAt(recentErrors[..], writeIdx, log, i);
        assert log[|log| - 1 - i] in log;
        if recentErrors[idx].timestamp != 0 {
          recent := recent + [recentErrors[idx]];
        }
      }
      return ErrorStats(totalErrors, byCode, byCat, byStatus, recent);
    }
  }

  // ---------------------------------------------------------------- the ring

  /** The end of the log is in the ring: entry `j` in slot `j % max`. */
  ghost predicate RingHolds(ring: seq<TrackedError>, writeIdx: int, log: seq<TrackedError>) {
    && |ring| > 0 && writeIdx == |log| % |ring|
    && forall j :: 0 <= j < |log| && |log| - |ring| <= j ==> ring[j % |ring|] == log[j]
  }

  lemma {:induction false} MulAtLeast(d: int, m: int)
    requires d >= 1 && m > 0
    ensures d * m >= m
    decreases d
  {
    if d > 1 {
      MulAtLeast(d - 1, m);
      assert d * m == (d - 1) * m + m;
    }
  }

  /** Multiples of `m` closer together than `m` are the same. */
  lemma SameMultiple(q: int, p: int, m: int)
    requires m > 0 && -m < q * m - p * m < m
    ensures q == p
  {
    assert (q - p) * m == q * m - p * m && (p - q) * m == p * m - q * m;
    if q > p {
      MulAtLeast(q - p, m);
    } else if q < p {
      MulAtLeast(p - q, m);
    }
  }

  lemma ModUnique(a: int, q: int, r: int, m: int)
    requires m > 0 && a == q * m + r && 0 <= r < m
    ensures a % m == r && a / m == q
  {
    assert a == m * (a / m) + a % m;
    assert m * (a / m) == (a / m) * m;
    SameMultiple(q, a / m, m);
  }

  /** Entries closer than the ring's size stand in different slots. */
  lemma SlotsDiffer(a: nat, b: nat, m: int)
    requires m > 0 && a < b < a + m
    ensures a % m != b % m
  {
    if a % m == b % m {
      var p, q := a / m, b / m;
      assert a == m * p + a % m && b == m * q + b % m;
      assert q * m - p * m == b - a by {
        assert m * p == p * m && m * q == q * m;
      }
      SameMultiple(q, p, m);
    }
  }

  lemma NextSlot(n: nat, m: int)
    requires m > 0
    ensures (n % m + 1) % m == (n + 1) % m
  {
    var r := n % m;
    if r + 1 < m {
      ModUnique(n + 1, n / m, r + 1, m);
      ModUnique(r + 1, 0, r + 1, m);
    } else {
      assert (n / m + 1) * m == n / m * m + m;
      ModUnique(n + 1, n / m + 1, 0, m);
      ModUnique(m, 1, 0, m);
    }
  }

  /** The slot `i` steps before the write index, around the end of the ring. */
  lemma BackSlot(n: nat, i: nat, m: int)
    requires m > 0 && i < m && i < n
    ensures 0 <= (n % m - 1 - i + m) % m < m
    ensures (n % m - 1 - i + m) % m == (n - 1 - i) % m
  {
    var r, q, x := n % m, n / m, n % m - 1 - i;
    assert n == q * m + r;
    if x >= 0 {
      ModUnique(x + m, 1, x, m);
      ModUnique(n - 1 - i, q, x, m);
    } else {
      assert (q - 1) * m == q * m - m;
      ModUnique(x + m, 0, x + m, m);
      ModUnique(n - 1 - i, q - 1, x + m, m);
    }
  }

  lemma RingStep(ring: seq<TrackedError>, writeIdx: int, log: seq<TrackedError>, e: TrackedError)
    requires RingHolds(ring, writeIdx, log)
    ensures 0 <= writeIdx < |ring| && RingHolds(ring[writeIdx := e], (writeIdx + 1) % |ring|, log + [e])
  {
    var m, n := |ring|, |log|;
    var ring', log' := ring[writeIdx := e], log + [e];
    NextSlot(n, m);
    forall j | 0 <= j < |log'| && |log'| - m <= j ensures ring'[j % m] == log'[j] {
      if j < n {
        SlotsDiffer(j, n, m);
      }
    }
  }

  /** Walking back from the write index the ring gives the newest errors. */
  lemma RingAt(ring: seq<TrackedError>, writeIdx: int, log: seq<TrackedError>, i: nat)
    requires RingHolds(ring, writeIdx, log) && i < |log| && i < |ring|
    ensures var idx := (writeIdx - 1 - i + |ring|) % |ring|; 0 <= idx < |ring| && ring[idx] == log[|log| - 1 - i]
  {
    BackSlot(|log|, i, |ring|);
  }

  // ---------------------------------------------------------------- what the maps say

  function CountOf<K(==)>(log: seq<TrackedError>, key: TrackedError -> K, k: K): nat {
    if log == [] then 0
    else CountOf(log[..|log| - 1], key, k) + if key(log[|log| - 1]) == k then 1 else 0
  }

  function LastOf<K(==)>(log: seq<TrackedError>, key: TrackedError -> K, k: K): Option<TrackedError> {
    if log == [] then None
    else if key(log[|log| - 1]) == k then Some(log[|log| - 1])
    else LastOf(log[..|log| - 1], key, k)
  }

  /** A bucket is there exactly for the keys that occur, with the number of their
      errors and the time and message of the last of them. */
  lemma {:induction false} TallyMeans<K>(log: seq<TrackedError>, key: TrackedError -> K, k: K)
    ensures k in Tally(log, key) <==> CountOf(log, key, k) > 0
    ensures k in Tally(log, key) <==> LastOf(log, key, k).Some?
    ensures k in Tally(log, key) ==>
      var b, e := Tally(log, key)[k], LastOf(log, key, k).value;
      b.count == CountOf(log, key, k) && b.lastSeen == e.timestamp && b.lastMsg == e.message
  {
    if log != [] {
      TallyMeans(log[..|log| - 1], key, k);
    }
  }

  /** The sum of the counts. */
  ghost function Sum<K>(m: map<K, Bucket>): nat
    decreases |m|
  {
    if m == map[] then 0
    else var k :| k in m; m[k].count + Sum(m - {k})
  }

  lemma {:induction false} SumWithout<K>(m: map<K, Bucket>, k: K)
    requires k in m
    ensures Sum(m) == m[k].count + Sum(m - {k})
    decreases |m|
  {
    var l :| l in m && Sum(m) == m[l].count + Sum(m - {l});
    if l != k {
      SumWithout(m - {l}, k);
      assert m - {l} - {k} == m - {k} - {l};
      SumWithout(m - {k}, l);
    }
  }

  lemma SumAdded<K>(m: map<K, Bucket>, k: K, now: int, msg: string)
    ensures Sum(Added(m, k, now, msg)) == Sum(m) + 1
  {
    var m' := Added(m, k, now, msg);
    SumWithout(m', k);
    assert m' - {k} == m - {k};
    if k in m {
      SumWithout(m, k);
    } else {
      assert m - {k} == m;
    }
  }

  /** Every error is counted once in each of the three maps. */
  lemma {:induction false} CountsSumToTotal<K>(log: seq<TrackedError>, key: TrackedError -> K)
    ensures Sum(Tally(log, key)) == |log|
  {
    if log != [] {
      var k := |log| - 1;
      CountsSumToTotal(log[..k], key);
      SumAdded(Tally(log[..k], key), key(log[k]), log[k].timestamp, log[k].message);
    }
  }

  /** Any number of calls of `Track`. */
  method TrackAll(t: ErrorTracker, es: seq<TrackedError>)
    requires t.Valid() && forall e :: e in es ==> e.timestamp != 0
    modifies t, t.Counters(), t.recentErrors
    ensures t.Valid() && t.log == old(t.log) + es
    ensures forall v :: v in t.Counters() ==> v in old(t.Counters()) || fresh(v)
    decreases |es|
  {
    hide ErrorTracker.Valid, Holds, Tally, RingHolds;
    if es != [] {
      assert es[0] in es;
      t.Track(es[0]);
      TrackAll(t, es[1..]);
      assert es == [es[0]] + es[1..];
    }
  }

  /** A snapshot holds what it was taken with, whatever is tracked afterwards. */
  method SnapshotStays(t: ErrorTracker, es: seq<TrackedError>) returns (s: ErrorStats)
    requires t.Valid() && forall e :: e in es ==> e.timestamp != 0
    modifies t, t.Counters(), t.recentErrors
    ensures t.Valid() && t.log == old(t.log) + es
    ensures Holds(s.byCode, Tally(old(t.log), Code)) && Holds(s.byCategory, Tally(old(t.log), Category))
    ensures Holds(s.byStatus, Tally(old(t.log), Status)) && s.totalErrors == |old(t.log)|
    ensures s.recentErrors == Newest(old(t.log), Min(|old(t.log)|, t.maxRecent))
  {
    hide ErrorTracker.Valid, Holds, Tally, RingHolds;
    s := t.Stats();
    TrackAll(t, es);
  }
}
