/** Store and forward: reports wait in memory while the centre is away, are handed over in batches
    when it answers, and are copied to a file now and then (site/relay.go, site/site.go, site/spool.go).

    The machine below interleaves arrivals, any number of drains, the writers of the file, and crashes.
    `arrived`, `delivered`, `dropped`, `malformed` and `saved` are history: what ever came in, what the centre took,
    what overflow discarded, what could not be made into a request, what was ever on disk. */
module Spool {

  /** A report with its arrival number. */
  datatype Report = Report(no: nat, body: string)

  datatype Outcome = Delivered | Unreachable | BadRequest

  datatype State = State(
    pending: seq<Report>,
    batches: seq<seq<Report>>,
    snaps: seq<seq<Report>>,
    disk: seq<Report>,
    arrived: seq<Report>,
    delivered: seq<Report>,
    dropped: seq<Report>,
    malformed: seq<Report>,
    saved: set<Report>)

  const START := State([], [], [], [], [], [], [], [], {})

  const MAX_PENDING := 5000
  const MAX_BODY := 256 * 1024

  datatype Event =
    | Forward(body: string)
    | Enqueue(body: string)
    | Take
    | Send(w: nat, outcome: Outcome)
    | Snap
    | Replace(i: nat)
    | Crash

  /** How many of the oldest reports an arrival pushes out. */
  function Overflow(waiting: nat, max: nat): (n: nat)
    ensures n <= waiting
  {
    if waiting >= max && waiting >= max / 2 then waiting - max / 2 else 0
  }

  function Enqueued(q: seq<Report>, r: Report, max: nat): seq<Report> {
    q[Overflow(|q|, max)..] + [r]
  }

  /** Right after an arrival at most `max` reports wait, whatever was put back before. */
  lemma ArrivalBoundsQueue(q: seq<Report>, r: Report, max: nat)
    requires max >= 1
    ensures |Enqueued(q, r, max)| <= max
    ensures |q| < max ==> Enqueued(q, r, max) == q + [r]
  {
  }

  /** An arrival goes behind what waits. Below the limit nothing else changes; at it, or above it after a put-back, only
      the newest half of the limit stays, in order. */
  lemma ArrivalKeepsTheNewest(q: seq<Report>, r: Report, max: nat)
    requires max >= 1
    ensures var a := Enqueued(q, r, max);
            && a[|a| - 1] == r && a[..|a| - 1] <= q[|q| - (|a| - 1)..] && |a| - 1 <= |q|
            && |a| == if |q| >= max then max / 2 + 1 else |q| + 1
  {
  }

  /** All batches under way, oldest drain first. */
  function Flight(batches: seq<seq<Report>>): seq<Report> {
    if batches == [] then [] else batches[0] + Flight(batches[1..])
  }

  function Sent(s: State, w: nat, outcome: Outcome): State
    requires w < |s.batches| && s.batches[w] != []
  {
    var b := s.batches[w];
    match outcome
    case Delivered => s.(batches := s.batches[w := b[1..]], delivered := s.delivered + [b[0]])
    case BadRequest => s.(batches := s.batches[w := b[1..]], malformed := s.malformed + [b[0]])
    case Unreachable => s.(batches := s.batches[w := []], pending := b + s.pending)
  }

  function Step(max: nat, s: State, e: Event): State {
    match e
    case Forward(body) =>
      var r := Report(|s.arrived|, body);
      s.(arrived := s.arrived + [r], delivered := s.delivered + [r])
    case Enqueue(body) =>
      if |body| > MAX_BODY then s else
      var r := Report(|s.arrived|, body);
      s.(pending := Enqueued(s.pending, r, max), arrived := s.arrived + [r],
         dropped := s.dropped + s.pending[..Overflow(|s.pending|, max)])
    case Take => s.(pending := [], batches := s.batches + [s.pending])
    case Send(w, outcome) => if w < |s.batches| && s.batches[w] != [] then Sent(s, w, outcome) else s
    case Snap => s.(snaps := s.snaps + [s.pending])
    case Replace(i) =>
      if i < |s.snaps| then s.(disk := s.snaps[i], saved := s.saved + set r | r in s.snaps[i]) else s
    case Crash => s.(pending := s.disk, batches := [], snaps := [])
  }

  function Run(max: nat, es: seq<Event>): State {
    if es == [] then START else Step(max, Run(max, es[..|es| - 1]), es[|es| - 1])
  }

  // ---- Conservation ----

  /** How often a report occurs in a sequence. */
  function Count(q: seq<Report>, r: Report): nat {
    multiset(q)[r]
  }

  /** How often it occurs anywhere: waiting, under way, or settled. */
  function Total(s: State, r: Report): nat {
    Count(s.pending, r) + Count(Flight(s.batches), r) + Count(s.delivered, r)
    + Count(s.dropped, r) + Count(s.malformed, r)
  }

  ghost predicate Balanced(s: State) {
    forall r :: Total(s, r) == Count(s.arrived, r)
  }

  lemma {:induction false} FlightAppend(bs: seq<seq<Report>>, b: seq<Report>)
    ensures Flight(bs + [b]) == Flight(bs) + b
  {
    if bs == [] {
      assert Flight([b]) == b + Flight([]);
    } else {
      assert (bs + [b])[1..] == bs[1..] + [b];
      FlightAppend(bs[1..], b);
    }
  }

  lemma CountConcat(p: seq<Report>, q: seq<Report>, r: Report)
    ensures Count(p + q, r) == Count(p, r) + Count(q, r)
  {
  }

  lemma {:induction false} FlightUpdate(bs: seq<seq<Report>>, w: nat, b: seq<Report>, r: Report)
    requires w < |bs|
    ensures Count(Flight(bs[w := b]), r) + Count(bs[w], r) == Count(Flight(bs), r) + Count(b, r)
  {
    var cs := bs[w := b];
    CountConcat(cs[0], Flight(cs[1..]), r);
    CountConcat(bs[0], Flight(bs[1..]), r);
    if w == 0 {
      assert cs[1..] == bs[1..];
    } else {
      assert cs[1..] == bs[1..][w - 1 := b];
      FlightUpdate(bs[1..], w - 1, b, r);
    }
  }

  /** A send moves one report, or the batch, and leaves every count as it was. */
  lemma SendKeepsCount(s: State, w: nat, outcome: Outcome, r: Report)
    requires w < |s.batches| && s.batches[w] != []
    ensures Total(Sent(s, w, outcome), r) == Total(s, r)
  {
    var b := s.batches[w];
    assert b == [b[0]] + b[1..];
    CountConcat([b[0]], b[1..], r);
    match outcome {
      case Delivered =>
        FlightUpdate(s.batches, w, b[1..], r);
        CountConcat(s.delivered, [b[0]], r);
      case BadRequest =>
        FlightUpdate(s.batches, w, b[1..], r);
        CountConcat(s.malformed, [b[0]], r);
      case Unreachable =>
        FlightUpdate(s.batches, w, [], r);
        CountConcat(b, s.pending, r);
    }
  }

  lemma EnqueueCounts(max: nat, s: State, body: string, r: Report)
    requires |body| <= MAX_BODY
    ensures var t := Step(max, s, Enqueue(body));
            Total(t, r) - Count(t.arrived, r) == Total(s, r) - Count(s.arrived, r)
  {
    var n := Overflow(|s.pending|, max);
    var new_ := Report(|s.arrived|, body);
    assert s.pending == s.pending[..n] + s.pending[n..];
    CountConcat(s.pending[..n], s.pending[n..], r);
    CountConcat(s.pending[n..], [new_], r);
    CountConcat(s.dropped, s.pending[..n], r);
    CountConcat(s.arrived, [new_], r);
  }

  lemma StepBalanced(max: nat, s: State, e: Event)
    requires Balanced(s) && !e.Crash?
    ensures Balanced(Step(max, s, e))
  {
    var t := Step(max, s, e);
    forall r ensures Total(t, r) == Count(t.arrived, r) {
      assert Total(s, r) == Count(s.arrived, r);
      match e {
        case Forward(body) =>
          CountConcat(s.arrived, [Report(|s.arrived|, body)], r);
          CountConcat(s.delivered, [Report(|s.arrived|, body)], r);
        case Enqueue(body) => if |body| <= MAX_BODY { EnqueueCounts(max, s, body, r); }
        case Take =>
          FlightAppend(s.batches, s.pending);
          CountConcat(Flight(s.batches), s.pending, r);
        case Send(w, outcome) =>
          if w < |s.batches| && s.batches[w] != [] {
            SendKeepsCount(s, w, outcome, r);
          }
        case _ =>
      }
    }
  }

  /** Under every interleaving without a crash: what was accepted is what was delivered, is under way,
      is waiting, was pushed out by overflow, or could not be sent; each exactly once. */
  lemma {:induction false} NothingLostOrInvented(max: nat, es: seq<Event>)
    requires forall i :: 0 <= i < |es| ==> !es[i].Crash?
    ensures Balanced(Run(max, es))
  {
    if es != [] {
      NothingLostOrInvented(max, es[..|es| - 1]);
      StepBalanced(max, Run(max, es[..|es| - 1]), es[|es| - 1]);
    }
  }

  lemma {:induction false} ArrivalsNumbered(max: nat, es: seq<Event>)
    ensures forall i :: 0 <= i < |Run(max, es).arrived| ==> Run(max, es).arrived[i].no == i
  {
    if es != [] {
      ArrivalsNumbered(max, es[..|es| - 1]);
    }
  }

  lemma {:induction false} NumberedAreDistinct(q: seq<Report>, r: Report)
    requires forall i :: 0 <= i < |q| ==> q[i].no == i
    ensures Count(q, r) <= 1
    ensures r.no >= |q| ==> Count(q, r) == 0
  {
    if q != [] {
      var n := |q| - 1;
      NumberedAreDistinct(q[..n], r);
      assert q == q[..n] + [q[n]];
      CountConcat(q[..n], [q[n]], r);
    }
  }

  /** Without a crash no report reaches the centre twice. */
  lemma NoDoubleDelivery(max: nat, es: seq<Event>, r: Report)
    requires forall i :: 0 <= i < |es| ==> !es[i].Crash?
    ensures Count(Run(max, es).delivered, r) <= 1
  {
    NothingLostOrInvented(max, es);
    ArrivalsNumbered(max, es);
    var s := Run(max, es);
    NumberedAreDistinct(s.arrived, r);
    assert Count(s.delivered, r) <= Total(s, r);
  }

  // ---- Order ----

  /** A drain takes its batch only when no other is under way, and a report goes straight to the centre
      only when none is waiting or under way. */
  ghost predicate InTurn(s: State, e: Event) {
    && (e.Take? ==> Flight(s.batches) == [])
    && (e.Forward? ==> Flight(s.batches) == [] && s.pending == [])
  }

  ghost predicate Orderly(max: nat, es: seq<Event>) {
    es == [] || (&& Orderly(max, es[..|es| - 1]) && !es[|es| - 1].Crash?
                 && InTurn(Run(max, es[..|es| - 1]), es[|es| - 1]))
  }

  /** Only one batch, if any, is not finished. */
  ghost predicate OnlyBatch(bs: seq<seq<Report>>, w: nat) {
    w < |bs| && forall i :: 0 <= i < |bs| && i != w ==> bs[i] == []
  }

  lemma {:induction false} FlightEmptyIff(bs: seq<seq<Report>>)
    ensures Flight(bs) == [] <==> forall i :: 0 <= i < |bs| ==> bs[i] == []
  {
    if bs != [] {
      FlightEmptyIff(bs[1..]);
      if Flight(bs) == [] {
        assert bs[0] == [];
        forall i | 0 <= i < |bs| ensures bs[i] == [] {
          if i > 0 { assert bs[i] == bs[1..][i - 1]; }
        }
      }
    }
  }

  lemma {:induction false} FlightOfOnly(bs: seq<seq<Report>>, w: nat)
    requires OnlyBatch(bs, w)
    ensures Flight(bs) == bs[w]
  {
    if w == 0 {
      FlightEmptyIff(bs[1..]);
    } else {
      FlightOfOnly(bs[1..], w - 1);
    }
  }

  /** Whatever batch is under way is the only one. */
  ghost predicate AtMostOne(bs: seq<seq<Report>>) {
    forall w :: 0 <= w < |bs| && bs[w] != [] ==> OnlyBatch(bs, w)
  }

  ghost predicate InOrder(s: State) {
    && AtMostOne(s.batches)
    && (s.dropped == [] && s.malformed == [] ==> s.delivered + Flight(s.batches) + s.pending == s.arrived)
  }

  lemma SendInOrder(s: State, w: nat, outcome: Outcome)
    requires InOrder(s) && w < |s.batches| && s.batches[w] != []
    ensures InOrder(Sent(s, w, outcome))
  {
    var b, t := s.batches[w], Sent(s, w, outcome);
    assert OnlyBatch(s.batches, w) && OnlyBatch(t.batches, w);
    FlightOfOnly(s.batches, w);
    FlightOfOnly(t.batches, w);
    SendKeepsLine(s.delivered, b, s.pending);
  }

  /** Moving the head of the batch across, or the whole batch back, does not change the line. */
  lemma SendKeepsLine(d: seq<Report>, b: seq<Report>, q: seq<Report>)
    requires b != []
    ensures d + b + q == (d + [b[0]]) + b[1..] + q
    ensures d + b + q == d + [] + (b + q)
  {
  }

  lemma StepInOrder(max: nat, s: State, e: Event)
    requires InOrder(s) && InTurn(s, e) && !e.Crash?
    ensures InOrder(Step(max, s, e))
  {
    match e {
      case Take =>
        FlightEmptyIff(s.batches);
        FlightAppend(s.batches, s.pending);
      case Send(w, outcome) =>
        if w < |s.batches| && s.batches[w] != [] {
          SendInOrder(s, w, outcome);
        }
      case _ =>
    }
  }

  /** With one drain at a time, no report forwarded past the queue, and unless something overflowed or could
      not be sent: what the centre got, then the batch under way, then what waits, is the arrival sequence. */
  lemma {:induction false} QueueKeepsOrder(max: nat, es: seq<Event>)
    requires Orderly(max, es)
    ensures InOrder(Run(max, es))
  {
    if es != [] {
      QueueKeepsOrder(max, es[..|es| - 1]);
      StepInOrder(max, Run(max, es[..|es| - 1]), es[|es| - 1]);
    }
  }

  /** A report that finds the line up is forwarded at once and does not look at the queue. It keeps the order
      exactly when nothing is waiting and nothing is under way. */
  lemma ForwardKeepsOrderIff(max: nat, s: State, body: string)
    requires InOrder(s) && s.dropped == [] && s.malformed == []
    requires forall i :: 0 <= i < |s.arrived| ==> s.arrived[i].no == i
    ensures InOrder(Step(max, s, Forward(body))) <==> Flight(s.batches) == [] && s.pending == []
  {
    var r := Report(|s.arrived|, body);
    var rest := Flight(s.batches) + s.pending;
    assert s.delivered + rest == s.arrived by {
      assert s.delivered + rest == s.delivered + Flight(s.batches) + s.pending;
    }
    var line := s.delivered + [r] + Flight(s.batches) + s.pending;
    assert line == s.delivered + [r] + rest;
    if rest != [] {
      var n := |s.delivered|;
      assert line[n] == r && (s.arrived + [r])[n] == s.arrived[n];
      assert line != s.arrived + [r];
    }
  }

  // ---- Crashes ----

  ghost predicate Settled(s: State, r: Report) {
    r in s.delivered || r in s.dropped || r in s.malformed
  }

  /** Every report ever on disk is there still, or has been settled. */
  ghost predicate Durable(s: State) {
    forall r :: r in s.saved ==> r in s.disk || Settled(s, r)
  }

  /** Somewhere in memory, or settled. */
  ghost predicate Known(s: State, r: Report) {
    r in s.pending || r in Flight(s.batches) || Settled(s, r)
  }

  /** Every report ever on disk is known. */
  ghost predicate Accounted(s: State) {
    forall r :: r in s.saved ==> Known(s, r)
  }

  /** A snapshot that is up to date still leaves out what a drain holds: putting it in the place of the file keeps
      what was saved exactly when every saved report under way is waiting as well, or settled. */
  lemma FreshSnapshotDurableIff(max: nat, s: State, i: nat)
    requires Accounted(s) && i < |s.snaps| && s.snaps[i] == s.pending
    ensures Durable(Step(max, s, Replace(i))) <==>
            forall r :: r in s.saved && r in Flight(s.batches) ==> r in s.pending || Settled(s, r)
  {
    var t := Step(max, s, Replace(i));
    assert forall r :: Settled(t, r) <==> Settled(s, r);
    assert forall r :: r in s.saved ==> Known(s, r);
  }

  /** The discipline of the file: a copy is taken only while no batch is under way, and only the newest copy is put
      in the place of the file. Anything may happen between the two. */
  ghost predicate Careful(s: State, e: Event) {
    && (e.Snap? ==> Flight(s.batches) == [])
    && (e.Replace? ==> e.i + 1 == |s.snaps|)
  }

  ghost predicate CarefulRun(max: nat, es: seq<Event>) {
    es == [] || (CarefulRun(max, es[..|es| - 1]) && Careful(Run(max, es[..|es| - 1]), es[|es| - 1]))
  }

  lemma SettledStays(max: nat, s: State, e: Event, r: Report)
    requires Settled(s, r)
    ensures Settled(Step(max, s, e), r)
  {
  }

  lemma {:induction false} InFlight(bs: seq<seq<Report>>, r: Report)
    ensures r in Flight(bs) <==> exists w :: 0 <= w < |bs| && r in bs[w]
  {
    if bs != [] {
      InFlight(bs[1..], r);
      assert Flight(bs) == bs[0] + Flight(bs[1..]);
      if r in Flight(bs[1..]) {
        var w :| 0 <= w < |bs[1..]| && r in bs[1..][w];
        assert r in bs[w + 1];
      }
      forall w | 0 < w < |bs| && r in bs[w] ensures r in Flight(bs[1..]) {
        assert r in bs[1..][w - 1];
      }
    }
  }

  /** A report that one send moves is still waiting, under way, or settled. */
  lemma SendAccounts(s: State, w: nat, outcome: Outcome, r: Report)
    requires w < |s.batches| && s.batches[w] != []
    requires r in s.pending || r in Flight(s.batches) || Settled(s, r)
    ensures var t := Sent(s, w, outcome); r in t.pending || r in Flight(t.batches) || Settled(t, r)
  {
    var t := Sent(s, w, outcome);
    if r in Flight(s.batches) && r !in t.pending && !Settled(t, r) {
      InFlight(s.batches, r);
      var v :| 0 <= v < |s.batches| && r in s.batches[v];
      assert r in t.batches[v];
      InFlight(t.batches, r);
    }
  }

  lemma StepKeepsKnown(max: nat, s: State, e: Event, r: Report)
    requires Known(s, r) && !e.Crash?
    ensures Known(Step(max, s, e), r)
  {
    match e {
      case Enqueue(body) =>
        if |body| <= MAX_BODY {
          assert s.pending == s.pending[..Overflow(|s.pending|, max)] + s.pending[Overflow(|s.pending|, max)..];
        }
      case Take => FlightAppend(s.batches, s.pending);
      case Send(w, outcome) =>
        if w < |s.batches| && s.batches[w] != [] {
          SendAccounts(s, w, outcome, r);
        }
      case _ =>
    }
  }

  /** The newest copy, if one has been taken since the last start. */
  ghost predicate InNewest(s: State, r: Report) {
    s.snaps != [] && r in s.snaps[|s.snaps| - 1]
  }

  /** What the discipline keeps: saved reports are on disk or settled, and in the newest copy or settled; and whatever
      is in the newest copy is still known. */
  ghost predicate Safe(s: State) {
    && Durable(s) && Accounted(s)
    && (forall r :: r in s.saved && s.snaps != [] ==> InNewest(s, r) || Settled(s, r))
    && (forall r :: InNewest(s, r) ==> Known(s, r))
  }

  lemma WriteSafe(max: nat, s: State, e: Event)
    requires Safe(s) && Careful(s, e) && (e.Snap? || e.Replace? || e.Crash?)
    ensures Safe(Step(max, s, e))
  {
    var t := Step(max, s, e);
    assert forall r :: Settled(t, r) <==> Settled(s, r);
    assert !e.Crash? ==> forall r :: Known(t, r) <==> Known(s, r);
    forall r | r in t.saved ensures Known(t, r) {
      assert r in s.saved || InNewest(s, r);
    }
  }

  lemma StepSafe(max: nat, s: State, e: Event)
    requires Safe(s) && Careful(s, e)
    ensures Safe(Step(max, s, e))
  {
    if e.Snap? || e.Replace? || e.Crash? {
      WriteSafe(max, s, e);
    } else {
      var t := Step(max, s, e);
      assert t.snaps == s.snaps && t.saved == s.saved && t.disk == s.disk;
      forall r | Settled(s, r) ensures Settled(t, r) { SettledStays(max, s, e, r); }
      forall r | r in s.saved || InNewest(s, r) ensures Known(t, r) {
        assert Known(s, r);
        StepKeepsKnown(max, s, e, r);
      }
    }
  }

  lemma {:induction false} CarefulRunsAreSafe(max: nat, es: seq<Event>)
    requires CarefulRun(max, es)
    ensures Safe(Run(max, es))
  {
    if es != [] {
      CarefulRunsAreSafe(max, es[..|es| - 1]);
      StepSafe(max, Run(max, es[..|es| - 1]), es[|es| - 1]);
    }
  }

  /** If copies are taken only while no batch is under way and the newest is the one put in place, whatever arrives, is
      taken, sent or put back in between: after a crash at any moment of any run every report that was ever on disk
      is waiting again, or was settled. */
  lemma CrashLosesNothingSaved(max: nat, es: seq<Event>, r: Report)
    requires CarefulRun(max, es) && r in Run(max, es).saved
    ensures var after := Step(max, Run(max, es), Crash); r in after.pending || Settled(after, r)
  {
    CarefulRunsAreSafe(max, es);
  }

  /** Whatever the crashes and the writes: nothing is ever handed over, waiting or on disk that did not
      arrive. Delivering again can only repeat. */
  ghost predicate OnlyArrivals(s: State) {
    && (forall r :: r in s.pending || r in s.disk || r in s.delivered || r in Flight(s.batches) ==> r in s.arrived)
    && (forall i, r :: 0 <= i < |s.snaps| && r in s.snaps[i] ==> r in s.arrived)
  }

  lemma StepOnlyArrivals(max: nat, s: State, e: Event)
    requires OnlyArrivals(s)
    ensures OnlyArrivals(Step(max, s, e))
  {
    var t := Step(max, s, e);
    match e {
      case Take => FlightAppend(s.batches, s.pending);
      case Send(w, outcome) =>
        if w < |s.batches| && s.batches[w] != [] {
          forall r | r in s.batches[w] ensures r in s.arrived {
            InFlight(s.batches, r);
          }
          forall r | r in Flight(t.batches) ensures r in s.arrived {
            InFlight(t.batches, r);
            var v :| 0 <= v < |t.batches| && r in t.batches[v];
            assert r in s.batches[v];
            InFlight(s.batches, r);
          }
        }
      case _ =>
    }
  }

  lemma {:induction false} RedeliveryOnlyRepeats(max: nat, es: seq<Event>)
    ensures OnlyArrivals(Run(max, es))
  {
    if es != [] {
      RedeliveryOnlyRepeats(max, es[..|es| - 1]);
      StepOnlyArrivals(max, Run(max, es[..|es| - 1]), es[|es| - 1]);
    }
  }

  /** The file is replaced while a drain is under way, as the one-second tick may do: the report was on
      disk, is nowhere now, and was never delivered. */
  lemma TickDuringDrainLosesAReport() returns (es: seq<Event>)
    ensures var s := Run(MAX_PENDING, es);
            && Report(0, "a") in s.saved && !Settled(s, Report(0, "a"))
            && s.pending == [] && s.disk == [] && Flight(s.batches) == []
  {
    var r := Report(0, "a");
    var held := State([r], [], [], [], [r], [], [], [], {});
    es := [Enqueue("a")];
    assert Run(MAX_PENDING, []) == START;
    assert es[..0] == [];
    assert Run(MAX_PENDING, es) == held;
    var es2 := es + [Snap];
    assert es2[..1] == es;
    assert Run(MAX_PENDING, es2) == held.(snaps := [[r]]);
    var es3 := es2 + [Replace(0)];
    assert es3[..2] == es2;
    var kept := held.(snaps := [[r]], disk := [r], saved := {r});
    assert Run(MAX_PENDING, es3) == kept;
    es := DrainThenTickThenCrash(es3, kept);
  }

  lemma DrainThenTickThenCrash(before: seq<Event>, s: State) returns (es: seq<Event>)
    requires Run(MAX_PENDING, before) == s && |s.pending| == 1 && s.batches == [] && |s.snaps| == 1
    ensures Run(MAX_PENDING, es) == s.(pending := [], batches := [], snaps := [], disk := [])
  {
    var es4 := before + [Take];
    assert es4[..|before|] == before;
    var s4 := s.(pending := [], batches := [s.pending]);
    assert Run(MAX_PENDING, es4) == s4;
    var es5 := es4 + [Snap];
    assert es5[..|es4|] == es4;
    var s5 := s4.(snaps := s.snaps + [[]]);
    assert Run(MAX_PENDING, es5) == s5;
    var es6 := es5 + [Replace(1)];
    assert es6[..|es5|] == es5;
    assert (set r | r in s5.snaps[1]) == {};
    var s6 := s5.(disk := []);
    assert Run(MAX_PENDING, es6) == s6;
    es := es6 + [Crash];
    assert es[..|es6|] == es6;
  }
}
