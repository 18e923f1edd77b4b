/**
 The worker pool of cmd/resubscribe/main.go as a transition system: a producer
 loop, a channel with room for one job per worker, the workers, a context that
 may be cancelled at any moment, and three counters. Every interleaving of the
 goroutines is a sequence of the steps below.
*/
module WorkerPool {
  import opened Wrappers
  import opened StableSort

  datatype Vehicle = Vehicle(id: int, vin: string)

  datatype Outcome = Succeeded | Failed | Skipped

  /** What the command proxy answers to one push. */
  datatype Response = Response(failed: bool, status: int)

  /** `pushOne`. */
  function PushOne(dryRun: bool, v: Vehicle, r: Response): Outcome {
    if v.vin == "" then Skipped
    else if dryRun then Succeeded
    else if r.failed || r.status < 200 || r.status >= 300 then Failed
    else Succeeded
  }

  // ---------------------------------------------------------------- states and steps

  /** `workers` is at least one: `run` refuses to start otherwise. */
  datatype Config = Config(targets: seq<Vehicle>, workers: nat, dryRun: bool)

  /** A worker waits on the channel, pushes a target, or has ended. */
  datatype Worker = Waiting | Pushing(target: nat) | Ended

  /** `next` is the producer's position among the targets; targets are named by
      their position. `counted` is the history of counter increments. */
  datatype State = State(
    next: nat,
    queue: seq<nat>,
    closed: bool,
    cancelled: bool,
    workers: seq<Worker>,
    succeeded: nat,
    failed: nat,
    skipped: nat,
    counted: seq<(nat, Outcome)>,
    exitCode: Option<int>)

  datatype Step =
    | Cancel                                  // the context is cancelled
    | Send                                    // the producer's select picks `jobs <- v`
    | Drop                                    // the producer's select picks `<-ctx.Done()`
    | Close                                   // close(jobs), after the last target
    | Receive(w: nat)                         // a worker takes the oldest job
    | Finish(w: nat, response: Response)      // a push ends and its counter is bumped
    | Leave(w: nat)                           // a worker finds the channel closed and empty
    | Return                                  // wg.Wait() is over; the exit code is computed

  predicate Enabled(c: Config, s: State, step: Step) {
    match step
    case Cancel => !s.cancelled
    case Send => s.next < |c.targets| && |s.queue| < c.workers
    case Drop => s.next < |c.targets| && s.cancelled
    case Close => s.next == |c.targets| && !s.closed
    case Receive(w) => w < |s.workers| && s.workers[w] == Waiting && s.queue != []
    case Finish(w, _) => w < |s.workers| && s.workers[w].Pushing? && s.workers[w].target < |c.targets|
    case Leave(w) => w < |s.workers| && s.workers[w] == Waiting && s.queue == [] && s.closed
    case Return => s.closed && s.exitCode == None && forall x :: x in s.workers ==> x == Ended
  }

  function Count(s: State, t: nat, o: Outcome): State {
    var s' := s.(counted := s.counted + [(t, o)]);
    match o
    case Succeeded => s'.(succeeded := s.succeeded + 1)
    case Failed => s'.(failed := s.failed + 1)
    case Skipped => s'.(skipped := s.skipped + 1)
  }

  function After(c: Config, s: State, step: Step): State
    requires Enabled(c, s, step)
  {
    match step
    case Cancel => s.(cancelled := true)
    case Send => s.(next := s.next + 1, queue := s.queue + [s.next])
    case Drop => Count(s.(next := s.next + 1), s.next, Skipped)
    case Close => s.(closed := true)
    case Receive(w) => s.(queue := s.queue[1..], workers := s.workers[w := Pushing(s.queue[0])])
    case Finish(w, r) =>
      var t := s.workers[w].target;
      Count(s.(workers := s.workers[w := Waiting]), t, PushOne(c.dryRun, c.targets[t], r))
    case Leave(w) => s.(workers := s.workers[w := Ended])
    case Return => s.(exitCode := Some(if s.failed > 0 || s.skipped > 0 then 1 else 0))
  }

  function Init(c: Config): State {
    State(0, [], false, false, seq(c.workers, _ => Waiting), 0, 0, 0, [], None)
  }

  /** Where a list of steps leads from the initial state, if each was enabled. */
  function Exec(c: Config, steps: seq<Step>): Option<State> {
    if steps == [] then Some(Init(c))
    else match Exec(c, steps[..|steps| - 1])
      case None => None
      case Some(r) => if Enabled(c, r, steps[|steps| - 1]) then Some(After(c, r, steps[|steps| - 1])) else None
  }

  /** `s` is reached by the run `steps`: any interleaving, any cancellation moment. */
  predicate Run(c: Config, steps: seq<Step>, s: State) {
    Exec(c, steps) == Some(s)
  }

  // ---------------------------------------------------------------- where targets are

  function One(b: bool): nat {
    if b then 1 else 0
  }

  /** How many entries of the queue are target `t`. */
  function Queued(q: seq<nat>, t: nat): nat {
    if q == [] then 0 else One(q[0] == t) + Queued(q[1..], t)
  }

  /** How many workers are pushing target `t`. */
  function InFlight(ws: seq<Worker>, t: nat): nat {
    if ws == [] then 0 else One(ws[0] == Pushing(t)) + InFlight(ws[1..], t)
  }

  /** How often some counter was bumped for target `t`. */
  function Counted(counted: seq<(nat, Outcome)>, t: nat): nat {
    if counted == [] then 0
    else Counted(counted[..|counted| - 1], t) + One(counted[|counted| - 1].0 == t)
  }

  function Tally(counted: seq<(nat, Outcome)>, o: Outcome): nat {
    if counted == [] then 0
    else Tally(counted[..|counted| - 1], o) + One(counted[|counted| - 1].1 == o)
  }

  /** In how many places target `t` is: pending, queued, in flight, counted. */
  function Places(c: Config, s: State, t: nat): nat {
    One(s.next <= t < |c.targets|) + Queued(s.queue, t) + InFlight(s.workers, t) + Counted(s.counted, t)
  }

  /** How an outcome may come to be counted for a target. */
  predicate Accounted(c: Config, s: State, t: nat, o: Outcome) {
    && t < |c.targets|
    && (c.targets[t].vin == "" ==> o == Skipped)
    && (c.targets[t].vin != "" && !s.cancelled ==> o != Skipped)
    && (c.dryRun ==> o != Failed)
  }

  predicate AllEnded(ws: seq<Worker>) {
    forall i | 0 <= i < |ws| :: ws[i] == Ended
  }

  predicate NoneEnded(ws: seq<Worker>) {
    forall i | 0 <= i < |ws| :: ws[i] != Ended
  }

  /** The pool's sizes, and what a closed channel, an ended worker and an exit
      code imply. */
  predicate Shape(c: Config, s: State) {
    && s.next <= |c.targets|
    && |s.workers| == c.workers
    && |s.queue| <= c.workers
    && (s.closed ==> s.next == |c.targets|)
    && (NoneEnded(s.workers) || (s.closed && s.queue == []))
    && (s.exitCode.Some? ==>
          s.closed && AllEnded(s.workers) && s.exitCode.value == One(s.failed > 0 || s.skipped > 0))
  }

  /** The counters tally the history, and every entry of it is accounted for. */
  predicate Books(c: Config, s: State) {
    && s.succeeded == Tally(s.counted, Succeeded)
    && s.failed == Tally(s.counted, Failed)
    && s.skipped == Tally(s.counted, Skipped)
    && forall p :: p in s.counted ==> Accounted(c, s, p.0, p.1)
  }

  /** Each target is in one place, and nothing else is anywhere. */
  ghost predicate Conserved(c: Config, s: State) {
    forall t: nat :: Places(c, s, t) == One(t < |c.targets|)
  }

  ghost predicate Inv(c: Config, s: State) {
    Shape(c, s) && Books(c, s) && Conserved(c, s)
  }

  lemma {:induction false} QueuedAppend(q: seq<nat>, x: nat, t: nat)
    ensures Queued(q + [x], t) == Queued(q, t) + One(x == t)
  {
    if q != [] {
      QueuedAppend(q[1..], x, t);
      assert (q + [x])[1..] == q[1..] + [x];
    }
  }

  lemma {:induction false} InFlightUpdate(ws: seq<Worker>, w: nat, x: Worker, t: nat)
    requires w < |ws|
    ensures InFlight(ws[w := x], t) + One(ws[w] == Pushing(t)) == InFlight(ws, t) + One(x == Pushing(t))
  {
    if w == 0 {
      assert ws[w := x][1..] == ws[1..];
    } else {
      InFlightUpdate(ws[1..], w - 1, x, t);
      assert ws[w := x][1..] == ws[1..][w - 1 := x];
    }
  }

  lemma {:induction false} InFlightNone(ws: seq<Worker>, t: nat)
    requires forall i :: 0 <= i < |ws| ==> ws[i] != Pushing(t)
    ensures InFlight(ws, t) == 0
  {
    if ws != [] {
      InFlightNone(ws[1..], t);
    }
  }

  lemma InitInv(c: Config)
    ensures Inv(c, Init(c))
  {
    forall t: nat
      ensures Places(c, Init(c), t) == One(t < |c.targets|)
    {
      InFlightNone(Init(c).workers, t);
    }
  }

  lemma CountedAppend(h: seq<(nat, Outcome)>, t: nat, o: Outcome)
    ensures Tally(h + [(t, o)], Succeeded) == Tally(h, Succeeded) + One(o == Succeeded)
    ensures Tally(h + [(t, o)], Failed) == Tally(h, Failed) + One(o == Failed)
    ensures Tally(h + [(t, o)], Skipped) == Tally(h, Skipped) + One(o == Skipped)
    ensures forall u :: Counted(h + [(t, o)], u) == Counted(h, u) + One(t == u)
  {
    var g := h + [(t, o)];
    assert g[..|g| - 1] == h;
  }

  lemma StepShape(c: Config, s: State, step: Step)
    requires Shape(c, s) && Enabled(c, s, step)
    ensures Shape(c, After(c, s, step))
  {
    hide PushOne;
    match step
    case Receive(w) => assert !AllEnded(s.workers);
    case Finish(w, _) => assert !AllEnded(s.workers);
    case Leave(w) => assert !AllEnded(s.workers);
    case Return => assert forall i :: 0 <= i < |s.workers| ==> s.workers[i] in s.workers;
    case Drop => assert s.exitCode == None;
    case _ =>
  }

  lemma CountBooks(c: Config, s: State, r: State, t: nat, o: Outcome)
    requires Books(c, s) && Accounted(c, s, t, o)
    requires r.counted == s.counted && r.succeeded == s.succeeded && r.failed == s.failed && r.skipped == s.skipped
    requires r.cancelled == s.cancelled
    ensures Books(c, Count(r, t, o))
  {
    CountedAppend(s.counted, t, o);
  }

  lemma StepBooks(c: Config, s: State, step: Step)
    requires Books(c, s) && Enabled(c, s, step)
    ensures Books(c, After(c, s, step))
  {
    hide Tally, Count;
    match step
    case Drop => CountBooks(c, s, s.(next := s.next + 1), s.next, Skipped);
    case Finish(w, r) =>
      var t := s.workers[w].target;
      CountBooks(c, s, s.(workers := s.workers[w := Waiting]), t, PushOne(c.dryRun, c.targets[t], r));
    case _ =>
  }

  /** No step loses, invents or doubles a target: each moves one to its next place. */
  lemma StepPlaces(c: Config, s: State, step: Step, t: nat)
    requires Shape(c, s) && Enabled(c, s, step)
    ensures Places(c, After(c, s, step), t) == Places(c, s, t)
  {
    hide PushOne, Tally;
    match step
    case Send => QueuedAppend(s.queue, s.next, t);
    case Drop => CountedAppend(s.counted, s.next, Skipped);
    case Receive(w) => InFlightUpdate(s.workers, w, Pushing(s.queue[0]), t);
    case Finish(w, r) =>
      InFlightUpdate(s.workers, w, Waiting, t);
      var u := s.workers[w].target;
      CountedAppend(s.counted, u, PushOne(c.dryRun, c.targets[u], r));
    case Leave(w) => InFlightUpdate(s.workers, w, Ended, t);
    case _ =>
  }

  /** Every step keeps the invariant. */
  lemma StepInv(c: Config, s: State, step: Step)
    requires Inv(c, s) && Enabled(c, s, step)
    ensures Inv(c, After(c, s, step))
  {
    hide Shape, Books, Places, After;
    StepShape(c, s, step);
    StepBooks(c, s, step);
    forall t: nat
      ensures Places(c, After(c, s, step), t) == One(t < |c.targets|)
    {
      StepPlaces(c, s, step, t);
    }
  }

  lemma {:induction false} RunInv(c: Config, steps: seq<Step>, s: State)
    requires Run(c, steps, s)
    ensures Inv(c, s)
    decreases |steps|
  {
    if steps == [] {
      InitInv(c);
    } else {
      var front, last := steps[..|steps| - 1], steps[|steps| - 1];
      var r := Exec(c, front).value;
      RunInv(c, front, r);
      StepInv(c, r, last);
    }
  }

  // ---------------------------------------------------------------- safety

  /** In every reachable state every target is in exactly one place, and no
      more than one job per worker is queued or in flight. */
  lemma TargetsConserved(c: Config, steps: seq<Step>, s: State)
    requires Run(c, steps, s)
    ensures forall t: nat :: Places(c, s, t) == One(t < |c.targets|)
    ensures |s.queue| <= c.workers && Busy(s.workers) <= c.workers
  {
    RunInv(c, steps, s);
    BusyBound(s.workers);
  }

  /** How many workers are pushing. */
  function Busy(ws: seq<Worker>): nat {
    if ws == [] then 0 else One(ws[0].Pushing?) + Busy(ws[1..])
  }

  lemma {:induction false} BusyBound(ws: seq<Worker>)
    ensures Busy(ws) <= |ws|
  {
    if ws != [] {
      BusyBound(ws[1..]);
    }
  }

  // ---------------------------------------------------------------- progress

  function Live(ws: seq<Worker>): nat {
    if ws == [] then 0 else One(ws[0] != Ended) + Live(ws[1..])
  }

  /** Work left: it falls at every step of every run. */
  function Measure(c: Config, s: State): int {
    3 * (|c.targets| - s.next) + 2 * |s.queue| + Busy(s.workers) + Live(s.workers)
    + One(!s.closed) + One(!s.cancelled) + One(s.exitCode == None)
  }

  lemma {:induction false} WorkUpdate(ws: seq<Worker>, w: nat, x: Worker)
    requires w < |ws|
    ensures Live(ws[w := x]) + One(ws[w] != Ended) == Live(ws) + One(x != Ended)
    ensures Busy(ws[w := x]) + One(ws[w].Pushing?) == Busy(ws) + One(x.Pushing?)
  {
    if w == 0 {
      assert ws[w := x][1..] == ws[1..];
    } else {
      WorkUpdate(ws[1..], w - 1, x);
      assert ws[w := x][1..] == ws[1..][w - 1 := x];
    }
  }

  lemma StepMeasure(c: Config, s: State, step: Step)
    requires Enabled(c, s, step)
    ensures Measure(c, After(c, s, step)) < Measure(c, s)
  {
    hide PushOne;
    match step
    case Receive(w) => WorkUpdate(s.workers, w, Pushing(s.queue[0]));
    case Finish(w, r) => WorkUpdate(s.workers, w, Waiting);
    case Leave(w) => WorkUpdate(s.workers, w, Ended);
    case _ =>
  }

  lemma {:induction false} InitWork(n: nat)
    ensures Live(seq(n, _ => Waiting)) == n && Busy(seq(n, _ => Waiting)) == 0
  {
    if n > 0 {
      InitWork(n - 1);
      assert seq(n, _ => Waiting)[1..] == seq(n - 1, _ => Waiting);
    }
  }

  /** Every run ends: three steps a target, one a worker, and three more are all
      there can be. */
  lemma {:induction false} RunsEnd(c: Config, steps: seq<Step>, s: State)
    requires Run(c, steps, s)
    ensures |steps| + Measure(c, s) <= 3 * |c.targets| + c.workers + 3
    ensures |steps| <= 3 * |c.targets| + c.workers + 3
    decreases |steps|
  {
    if steps == [] {
      InitWork(c.workers);
    } else {
      var front, last := steps[..|steps| - 1], steps[|steps| - 1];
      var r := Exec(c, front).value;
      RunsEnd(c, front, r);
      StepMeasure(c, r, last);
      RunInv(c, steps, s);
    }
  }

  /** With at least one worker no state short of the exit is stuck: the program
      itself can always move, whether or not anyone cancels. */
  lemma NeverStuck(c: Config, steps: seq<Step>, s: State) returns (step: Step)
    requires c.workers > 0 && Run(c, steps, s) && s.exitCode == None
    ensures Enabled(c, s, step) && step != Cancel
  {
    RunInv(c, steps, s);
    if s.next < |c.targets| && |s.queue| < c.workers {
      return Send;
    }
    if s.next == |c.targets| && !s.closed {
      return Close;
    }
    if w :| 0 <= w < |s.workers| && s.workers[w].Pushing? {
      PushedIsTarget(c, s, w);
      return Finish(w, Response(false, 200));
    }
    if w :| 0 <= w < |s.workers| && s.workers[w] == Waiting {
      return if s.queue != [] then Receive(w) else Leave(w);
    }
    assert s.workers[0] == Ended;
    return Return;
  }

  lemma PushedIsTarget(c: Config, s: State, w: nat)
    requires Conserved(c, s) && w < |s.workers| && s.workers[w].Pushing?
    ensures s.workers[w].target < |c.targets|
  {
    var t := s.workers[w].target;
    InFlightUpdate(s.workers, w, Waiting, t);
    assert Places(c, s, t) > 0;
  }

  /** Without workers the producer is stuck for good on its first target, unless
      the context is cancelled: why `run` insists on a positive number. */
  lemma StuckWithoutWorkers(c: Config, step: Step)
    requires c.workers == 0 && c.targets != [] && Enabled(c, Init(c), step)
    ensures step == Cancel
  {
  }

  // ---------------------------------------------------------------- exit code

  lemma {:induction false} TallySum(counted: seq<(nat, Outcome)>)
    ensures Tally(counted, Succeeded) + Tally(counted, Failed) + Tally(counted, Skipped) == |counted|
    ensures forall o :: Tally(counted, o) == 0 <==> forall p :: p in counted ==> p.1 != o
  {
    if counted != [] {
      var front, last := counted[..|counted| - 1], counted[|counted| - 1];
      TallySum(front);
      assert counted == front + [last];
      forall o
        ensures Tally(counted, o) == 0 <==> forall p :: p in counted ==> p.1 != o
      {
        assert last in counted;
        assert forall p :: p in counted <==> p in front || p == last;
      }
    }
  }

  /** A history in which each of `0..n` occurs once, and nothing else, has `n` entries. */
  lemma {:induction false} OnceEach(counted: seq<(nat, Outcome)>, n: nat)
    requires forall t: nat :: Counted(counted, t) == One(t < n)
    ensures |counted| == n
    decreases n
  {
    if n == 0 {
      if counted != [] {
        assert Counted(counted, counted[|counted| - 1].0) > 0;
      }
    } else {
      var i := Occurrence(counted, n - 1);
      var rest := counted[..i] + counted[i + 1..];
      forall t: nat
        ensures Counted(rest, t) == One(t < n - 1)
      {
        CountedWithout(counted, i, t);
      }
      OnceEach(rest, n - 1);
    }
  }

  lemma {:induction false} Occurrence(counted: seq<(nat, Outcome)>, t: nat) returns (i: nat)
    requires Counted(counted, t) > 0
    ensures i < |counted| && counted[i].0 == t
  {
    i := |counted| - 1;
    if counted[i].0 != t {
      i := Occurrence(counted[..|counted| - 1], t);
    }
  }

  lemma {:induction false} CountedWithout(h: seq<(nat, Outcome)>, i: nat, t: nat)
    requires i < |h|
    ensures Counted(h, t) == Counted(h[..i] + h[i + 1..], t) + One(h[i].0 == t)
    decreases |h|
  {
    var front, g := h[..|h| - 1], h[..i] + h[i + 1..];
    if i == |h| - 1 {
      assert g == front;
    } else {
      CountedWithout(front, i, t);
      assert g[..|g| - 1] == front[..i] + front[i + 1..];
    }
  }

  /** Every target was counted as a success. */
  predicate AllSucceeded(c: Config, s: State) {
    forall t | 0 <= t < |c.targets| :: (t, Succeeded) in s.counted
  }

  lemma AllCounted(c: Config, s: State)
    requires Inv(c, s) && s.exitCode.Some? && c.workers > 0
    ensures forall t: nat :: Counted(s.counted, t) == One(t < |c.targets|)
  {
    assert s.workers[0] == Ended;
    forall t: nat
      ensures Counted(s.counted, t) == One(t < |c.targets|)
    {
      InFlightNone(s.workers, t);
      assert Places(c, s, t) == One(t < |c.targets|);
    }
  }

  lemma OutcomeOf(c: Config, s: State, t: nat) returns (o: Outcome)
    requires Inv(c, s) && s.exitCode.Some? && c.workers > 0 && t < |c.targets|
    ensures (t, o) in s.counted
  {
    AllCounted(c, s);
    var i := Occurrence(s.counted, t);
    o := s.counted[i].1;
  }

  /** At the end the summary is honest: each target was counted once, the three
      counters add up to the targets, and the exit code is 0 exactly when every
      target succeeded. */
  lemma ExitCodeMeans(c: Config, steps: seq<Step>, s: State)
    requires c.workers > 0 && Run(c, steps, s) && s.exitCode.Some?
    ensures forall t: nat :: Counted(s.counted, t) == One(t < |c.targets|)
    ensures s.succeeded + s.failed + s.skipped == |c.targets|
    ensures s.exitCode == Some(0) <==> s.succeeded == |c.targets|
    ensures s.exitCode == Some(0) <==> AllSucceeded(c, s)
    ensures s.exitCode == Some(0) || s.exitCode == Some(1)
  {
    RunInv(c, steps, s);
    AllCounted(c, s);
    TallySum(s.counted);
    OnceEach(s.counted, |c.targets|);
    hide Places, Counted;
    if s.exitCode == Some(0) {
      forall t: nat | t < |c.targets|
        ensures (t, Succeeded) in s.counted
      {
        var o := OutcomeOf(c, s, t);
      }
    }
    if AllSucceeded(c, s) {
      OneOutcomeEach(c, s);
    }
  }

  /** A target counted once has one outcome, so nothing but success remains. */
  lemma OneOutcomeEach(c: Config, s: State)
    requires Books(c, s) && AllSucceeded(c, s)
    requires forall t: nat :: Counted(s.counted, t) == One(t < |c.targets|)
    ensures s.failed == 0 && s.skipped == 0
  {
    TallySum(s.counted);
    forall p | p in s.counted
      ensures p.1 == Succeeded
    {
      assert Accounted(c, s, p.0, p.1);
      if p.1 != Succeeded {
        TwoEntries(s.counted, p.0, p.1, Succeeded);
      }
    }
  }

  lemma {:induction false} OneEntry(counted: seq<(nat, Outcome)>, t: nat, o: Outcome)
    requires (t, o) in counted
    ensures Counted(counted, t) >= 1
  {
    var front, last := counted[..|counted| - 1], counted[|counted| - 1];
    assert counted == front + [last];
    if (t, o) in front {
      OneEntry(front, t, o);
    }
  }

  lemma {:induction false} TwoEntries(counted: seq<(nat, Outcome)>, t: nat, o: Outcome, q: Outcome)
    requires (t, o) in counted && (t, q) in counted && o != q
    ensures Counted(counted, t) >= 2
  {
    var front, last := counted[..|counted| - 1], counted[|counted| - 1];
    assert counted == front + [last];
    if (t, o) in front && (t, q) in front {
      TwoEntries(front, t, o, q);
    } else {
      OneEntry(front, t, if (t, o) in front then o else q);
    }
  }

  /** A dry run nobody cancels exits 0 exactly when every target has a VIN. */
  lemma DryRunExit(c: Config, steps: seq<Step>, s: State)
    requires c.workers > 0 && Run(c, steps, s) && s.exitCode.Some? && c.dryRun && !s.cancelled
    ensures s.exitCode == Some(0) <==> forall v :: v in c.targets ==> v.vin != ""
  {
    RunInv(c, steps, s);
    ExitCodeMeans(c, steps, s);
    hide Places, Counted, Tally;
    forall t: nat | t < |c.targets|
      ensures (t, Succeeded) in s.counted <==> c.targets[t].vin != ""
    {
      var o := OutcomeOf(c, s, t);
      assert Accounted(c, s, (t, o).0, (t, o).1);
      assert (t, Succeeded) in s.counted ==> Accounted(c, s, (t, Succeeded).0, (t, Succeeded).1);
    }
  }

  // ---------------------------------------------------------------- what the steps say

  /** The state before step number `i` of a run. */
  function Before(c: Config, steps: seq<Step>, i: nat): Option<State>
    requires i <= |steps|
  {
    Exec(c, steps[..i])
  }

  /** The vehicle whose push ends with this step. */
  function Pushed(c: Config, r: State, step: Step): Option<Vehicle> {
    if step.Finish? && step.w < |r.workers| && r.workers[step.w].Pushing? && r.workers[step.w].target < |c.targets|
    then Some(c.targets[r.workers[step.w].target])
    else None
  }

  /** The proxy accepted the push. */
  predicate Accepted(r: Response) {
    !r.failed && 200 <= r.status <= 299
  }

  datatype Kind = Success | Failure | Skip

  /** Of which kind a step is: a target given up is skipped, as is one without VIN;
      the end of any other push is a success in a dry run and otherwise what the
      proxy's answer says. */
  predicate IsKind(c: Config, r: State, step: Step, kind: Kind) {
    match Pushed(c, r, step)
    case None => step.Drop? && kind.Skip?
    case Some(v) =>
      match kind
      case Skip => v.vin == ""
      case Success => v.vin != "" && (c.dryRun || Accepted(step.response))
      case Failure => v.vin != "" && !c.dryRun && !Accepted(step.response)
  }

  /** How many of the steps are of that kind. */
  function HowMany(c: Config, steps: seq<Step>, kind: Kind): nat {
    if steps == [] then 0
    else
      var k := |steps| - 1;
      HowMany(c, steps[..k], kind)
      + match Exec(c, steps[..k]) case None => 0 case Some(r) => One(IsKind(c, r, steps[k], kind))
  }

  lemma StepCounts(c: Config, r: State, step: Step)
    requires Enabled(c, r, step)
    ensures var s := After(c, r, step);
      && s.succeeded == r.succeeded + One(IsKind(c, r, step, Success))
      && s.failed == r.failed + One(IsKind(c, r, step, Failure))
      && s.skipped == r.skipped + One(IsKind(c, r, step, Skip))
  {
  }

  /** Each counter counts the steps of its kind. */
  lemma {:induction false} CountersCount(c: Config, steps: seq<Step>, s: State)
    requires Run(c, steps, s)
    ensures s.succeeded == HowMany(c, steps, Success)
    ensures s.failed == HowMany(c, steps, Failure)
    ensures s.skipped == HowMany(c, steps, Skip)
    decreases |steps|
  {
    hide After, Enabled, IsKind;
    if steps != [] {
      var front, last := steps[..|steps| - 1], steps[|steps| - 1];
      var r := Exec(c, front).value;
      CountersCount(c, front, r);
      StepCounts(c, r, last);
    }
  }

  lemma {:induction false} NoneOfKind(c: Config, steps: seq<Step>, s: State, kind: Kind)
    requires Run(c, steps, s)
    ensures HowMany(c, steps, kind) == 0 <==>
            forall i: nat :: i < |steps| ==>
              Before(c, steps, i).Some? && !IsKind(c, Before(c, steps, i).value, steps[i], kind)
    decreases |steps|
  {
    hide After, Enabled, IsKind;
    if steps != [] {
      var k := |steps| - 1;
      var front := steps[..k];
      NoneOfKind(c, front, Exec(c, front).value, kind);
      forall i: nat | i < k
        ensures Before(c, steps, i) == Before(c, front, i) && steps[i] == front[i]
      {
        assert steps[..i] == front[..i];
      }
      assert Before(c, steps, k) == Exec(c, front);
    }
  }

  /** A step of a run was enabled where it stands. */
  lemma {:induction false} RunSteps(c: Config, steps: seq<Step>, s: State, i: nat)
    requires Run(c, steps, s) && i < |steps|
    ensures Before(c, steps, i).Some? && Enabled(c, Before(c, steps, i).value, steps[i])
    decreases |steps|
  {
    hide After, Enabled;
    var k := |steps| - 1;
    var front := steps[..k];
    if i < k {
      RunSteps(c, front, Exec(c, front).value, i);
      assert steps[..i] == front[..i];
    }
  }

  /** No target was given up, all have a VIN, and unless nothing was to be sent the
      proxy accepted every push. */
  predicate AllAccepted(c: Config, steps: seq<Step>) {
    && (forall step :: step in steps ==> !step.Drop?)
    && (forall v :: v in c.targets ==> v.vin != "")
    && (c.dryRun || forall step :: step in steps && step.Finish? ==> Accepted(step.response))
  }

  lemma AcceptedStep(c: Config, r: State, step: Step)
    requires Enabled(c, r, step) && forall v :: v in c.targets ==> v.vin != ""
    ensures !IsKind(c, r, step, Failure) && !IsKind(c, r, step, Skip) <==>
            !step.Drop? && (c.dryRun || !step.Finish? || Accepted(step.response))
  {
    hide Accepted;
    if step.Finish? {
      assert c.targets[r.workers[step.w].target] in c.targets;
    }
  }

  /** A finished run exits 0 if and only if no target was given up, every target has a
      VIN, and, unless it is a dry run, every push was answered without an error by a
      status from 200 to 299. */
  lemma ExitCodeIff(c: Config, steps: seq<Step>, s: State)
    requires c.workers > 0 && Run(c, steps, s) && s.exitCode.Some?
    ensures s.exitCode == Some(0) <==> AllAccepted(c, steps)
    ensures s.exitCode == Some(1) <==> !AllAccepted(c, steps)
  {
    hide IsKind, Enabled, Accepted, After;
    RunInv(c, steps, s);
    CountersCount(c, steps, s);
    NoneOfKind(c, steps, s, Failure);
    NoneOfKind(c, steps, s, Skip);
    if forall v :: v in c.targets ==> v.vin != "" {
      forall i: nat | i < |steps|
        ensures Before(c, steps, i).Some?
        ensures !IsKind(c, Before(c, steps, i).value, steps[i], Failure)
                && !IsKind(c, Before(c, steps, i).value, steps[i], Skip) <==>
                !steps[i].Drop? && (c.dryRun || !steps[i].Finish? || Accepted(steps[i].response))
      {
        RunSteps(c, steps, s, i);
        AcceptedStep(c, Before(c, steps, i).value, steps[i]);
      }
      EveryStep(c, steps);
    } else {
      var t: nat :| t < |c.targets| && c.targets[t].vin == "";
      NoVinSkips(c, s, t);
    }
  }

  lemma EveryStep(c: Config, steps: seq<Step>)
    requires forall v :: v in c.targets ==> v.vin != ""
    ensures AllAccepted(c, steps) <==>
      forall i: nat :: i < |steps| ==> !steps[i].Drop? && (c.dryRun || !steps[i].Finish? || Accepted(steps[i].response))
  {
    hide Accepted;
  }

  lemma NoVinSkips(c: Config, s: State, t: nat)
    requires Inv(c, s) && s.exitCode.Some? && c.workers > 0 && t < |c.targets| && c.targets[t].vin == ""
    ensures s.skipped > 0
  {
    hide Places, Tally;
    var o := OutcomeOf(c, s, t);
    assert Accounted(c, s, (t, o).0, (t, o).1);
    TallySum(s.counted);
  }

  // ---------------------------------------------------------------- before the pool

  predicate ById(a: Vehicle, b: Vehicle) {
    a.id <= b.id
  }

  /** The vehicles of a listing that has nil entries. */
  function Present(all: seq<Option<Vehicle>>): seq<Vehicle> {
    if all == [] then [] else (if all[0].Some? then [all[0].value] else []) + Present(all[1..])
  }

  lemma {:induction false} PresentAppend(all: seq<Option<Vehicle>>, v: Option<Vehicle>)
    ensures Present(all + [v]) == Present(all) + if v.Some? then [v.value] else []
  {
    if all != [] {
      PresentAppend(all[1..], v);
      assert (all + [v])[1..] == all[1..] + [v];
    }
  }

  /** The first entry with that id. */
  predicate FirstWithId(all: seq<Option<Vehicle>>, id: int, i: nat) {
    && i < |all| && all[i].Some? && all[i].value.id == id
    && forall j :: 0 <= j < i && all[j].Some? ==> all[j].value.id != id
  }

  /** Which vehicles are pushed to. Without a filter: all of them, by id. With one:
      the first with that id, if there is one. */
  ghost predicate Chosen(all: seq<Option<Vehicle>>, vehicleFilter: int, out: seq<Vehicle>) {
    if vehicleFilter == 0 then multiset(out) == multiset(Present(all)) && Sorted(ById, out)
    else if exists i: nat :: FirstWithId(all, vehicleFilter, i) then
      exists i: nat :: FirstWithId(all, vehicleFilter, i) && out == [all[i].value]
    else out == [] && forall j :: 0 <= j < |all| && all[j].Some? ==> all[j].value.id != vehicleFilter
  }

  /** `filterVehicles` (the library sort may order equal ids as it likes; a stable one
      stands for it). */
  method FilterVehicles(all: seq<Option<Vehicle>>, vehicleFilter: int) returns (out: seq<Vehicle>)
    ensures Chosen(all, vehicleFilter, out)
  {
    out := [];
    if vehicleFilter == 0 {
      for i := 0 to |all|
        invariant out == Present(all[..i])
      {
        PresentAppend(all[..i], all[i]);
        assert all[..i + 1] == all[..i] + [all[i]];
        if all[i].Some? {
          out := out + [all[i].value];
        }
      }
      assert all[..|all|] == all;
      SortIsStable(ById, out);
      out := Sort(ById, out);
      return;
    }
    for i := 0 to |all|
      invariant forall j :: 0 <= j < i && all[j].Some? ==> all[j].value.id != vehicleFilter
    {
      if all[i].Some? && all[i].value.id == vehicleFilter {
        assert FirstWithId(all, vehicleFilter, i);
        return [all[i].value];
      }
    }
  }

  /** What `runWithDeps` does before the pool starts: exit, or push to some targets. */
  datatype Start = Exit(code: int) | Push(targets: seq<Vehicle>)

  /** The pool starts exactly when the listing and the configuration succeed and there
      is someone to push to; an empty fleet is no error, an unknown id is one. */
  method Begin(listing: Option<seq<Option<Vehicle>>>, vehicleFilter: int, built: bool) returns (r: Start)
    ensures r.Push? ==> listing.Some? && built && r.targets != [] && Chosen(listing.value, vehicleFilter, r.targets)
    ensures r == Exit(0) <==> listing.Some? && vehicleFilter == 0 && Present(listing.value) == []
    ensures r == Exit(1) <==>
      listing == None || (vehicleFilter != 0 && Chosen(listing.value, vehicleFilter, [])) ||
      (!built && !(vehicleFilter == 0 && Present(listing.value) == []))
    ensures r.Exit? ==> r.code == 0 || r.code == 1
  {
    if listing == None {
      return Exit(1);
    }
    var targets := FilterVehicles(listing.value, vehicleFilter);
    if |targets| == 0 {
      assert vehicleFilter == 0 ==> |multiset(Present(listing.value))| == 0;
      return Exit(if vehicleFilter != 0 then 1 else 0);
    }
    assert vehicleFilter == 0 && Present(listing.value) == [] ==> |multiset(targets)| == 0;
    assert vehicleFilter != 0 ==> !Chosen(listing.value, vehicleFilter, []);
    if !built {
      return Exit(1);
    }
    return Push(targets);
  }
}
