/** The single-worker queue of image jobs (server/images.go): enqueuers and the runner interleave at the lock. */
module JobQueue {
  type Job = string

  /** Where one goroutine of runImageQueue stands. */
  datatype Runner = Starting | Looking | Working(job: Job) | Gone

  /** A runner is Starting from the moment its enqueuer releases the lock. The last two fields are history: jobs in the
      order they were enqueued, and in the order they were finished. */
  datatype State = State(pending: seq<Job>, running: bool, runners: seq<Runner>, enqueued: seq<Job>, finished: seq<Job>)

  datatype Event =
    | Arrive(job: Job)
    | Schedule(r: nat)
    | Take(r: nat)
    | Finish(r: nat)

  const IDLE := State([], false, [], [], [])

  /** Each event is one step of one goroutine; a step that is not possible changes nothing. */
  function Step(s: State, e: Event): State {
    match e
    case Arrive(job) =>
      s.(pending := s.pending + [job], running := true, enqueued := s.enqueued + [job],
         runners := if s.running then s.runners else s.runners + [Starting])
    case Schedule(r) =>
      if r < |s.runners| && s.runners[r].Starting? then s.(runners := s.runners[r := Looking]) else s
    case Take(r) =>
      if !(r < |s.runners| && s.runners[r].Looking?) then s
      else if s.pending == [] then s.(running := false, runners := s.runners[r := Gone])
      else s.(pending := s.pending[1..], runners := s.runners[r := Working(s.pending[0])])
    case Finish(r) =>
      if r < |s.runners| && s.runners[r].Working?
      then s.(runners := s.runners[r := Looking], finished := s.finished + [s.runners[r].job])
      else s
  }

  function After(events: seq<Event>): State {
    if events == [] then IDLE else Step(After(events[..|events| - 1]), events[|events| - 1])
  }

  predicate Live(r: Runner) {
    !r.Gone?
  }

  /** Only the youngest runner can be alive. */
  ghost predicate OnlyLastLives(s: State) {
    forall r :: 0 <= r < |s.runners| && Live(s.runners[r]) ==> r == |s.runners| - 1
  }

  predicate LastLives(s: State) {
    |s.runners| > 0 && Live(s.runners[|s.runners| - 1])
  }

  /** The job in hand, as a list of none or one. */
  function InHand(s: State): seq<Job> {
    if |s.runners| > 0 && s.runners[|s.runners| - 1].Working? then [s.runners[|s.runners| - 1].job] else []
  }

  ghost predicate Inv(s: State) {
    && OnlyLastLives(s)
    && (s.running <==> LastLives(s))
    && (s.pending != [] ==> s.running)
    && s.enqueued == s.finished + InHand(s) + s.pending
  }

  lemma StepKeepsInv(s: State, e: Event)
    requires Inv(s)
    ensures Inv(Step(s, e))
  {
    var t := Step(s, e);
    match e
    case Arrive(job) =>
      assert t.enqueued == t.finished + InHand(t) + t.pending;
    case Take(r) =>
      if r < |s.runners| && s.runners[r].Looking? && s.pending != [] {
        assert s.pending == [s.pending[0]] + s.pending[1..];
        assert t.enqueued == t.finished + InHand(t) + t.pending;
      }
    case _ =>
      assert t.enqueued == t.finished + InHand(t) + t.pending;
  }

  lemma {:induction false} AlwaysInv(events: seq<Event>)
    ensures Inv(After(events))
  {
    if events != [] {
      AlwaysInv(events[..|events| - 1]);
      StepKeepsInv(After(events[..|events| - 1]), events[|events| - 1]);
    }
  }

  /** In every interleaving at most one runner is alive; a waiting job has one, live or about to start; and jobs are
      worked one at a time, each once, in the order they were enqueued. */
  lemma OneWorkerInOrder(events: seq<Event>)
    ensures var s := After(events);
            && (forall p, q ::
                0 <= p < |s.runners| && 0 <= q < |s.runners| && Live(s.runners[p]) && Live(s.runners[q]) ==> p == q)
            && (s.pending != [] ==> exists r :: 0 <= r < |s.runners| && Live(s.runners[r]))
            && s.finished + InHand(s) <= s.enqueued
            && s.enqueued[|s.finished + InHand(s)|..] == s.pending
  {
    AlwaysInv(events);
    var s := After(events);
    if s.pending != [] { assert Live(s.runners[|s.runners| - 1]); }
  }

  /** No wake-up is lost: from every reachable state the live runner, left alone, works off all that waits. */
  function Drain(s: State): seq<Event> {
    if |s.runners| == 0 then []
    else
      var r := |s.runners| - 1;
      match s.runners[r]
      case Starting => [Schedule(r)] + Rounds(r, |s.pending|)
      case Looking => Rounds(r, |s.pending|)
      case Working(_) => [Finish(r)] + Rounds(r, |s.pending|)
      case Gone => []
  }

  function Rounds(r: nat, n: nat): seq<Event> {
    if n == 0 then [Take(r)] else [Take(r), Finish(r)] + Rounds(r, n - 1)
  }

  function Run(s: State, events: seq<Event>): State
    decreases |events|
  {
    if events == [] then s else Run(Step(s, events[0]), events[1..])
  }

  lemma {:induction false} RoundsWorkOff(s: State)
    requires Inv(s) && |s.runners| > 0 && s.runners[|s.runners| - 1].Looking?
    ensures var t := Run(s, Rounds(|s.runners| - 1, |s.pending|));
            Inv(t) && t.pending == [] && !t.running && t.enqueued == s.enqueued
    decreases |s.pending|
  {
    var r := |s.runners| - 1;
    var u := Step(s, Take(r));
    var rounds := Rounds(r, |s.pending|);
    assert rounds[0] == Take(r);
    StepKeepsInv(s, Take(r));
    if s.pending == [] {
      assert rounds[1..] == [];
      assert Run(s, rounds) == Run(u, []);
    } else {
      var v := Step(u, Finish(r));
      StepKeepsInv(u, Finish(r));
      assert rounds[1..] == [Finish(r)] + Rounds(r, |s.pending| - 1) && rounds[1..][1..] == Rounds(r, |s.pending| - 1);
      assert Run(s, rounds) == Run(u, rounds[1..]) == Run(v, rounds[1..][1..]);
      RoundsWorkOff(v);
    }
  }

  lemma EveryJobCanFinish(events: seq<Event>)
    ensures var s := After(events);
            var t := Run(s, Drain(s));
            t.pending == [] && InHand(t) == [] && t.finished == t.enqueued == s.enqueued
  {
    AlwaysInv(events);
    var s := After(events);
    if LastLives(s) {
      var r := |s.runners| - 1;
      var rounds := Rounds(r, |s.pending|);
      if s.runners[r].Looking? {
        RoundsWorkOff(s);
      } else {
        var first := if s.runners[r].Starting? then Schedule(r) else Finish(r);
        StepKeepsInv(s, first);
        assert Drain(s)[0] == first && Drain(s)[1..] == rounds;
        RoundsWorkOff(Step(s, first));
      }
    }
  }

  /** The queue itself; each method is one critical section. */
  class ImageQueue {
    var pending: seq<Job>
    var running: bool

    constructor ()
      ensures pending == IDLE.pending && running == IDLE.running
    {
      pending := [];
      running := false;
    }

    /** enqueueImage: the caller starts a runner when told to, as the machine's step does. */
    method Enqueue(job: Job) returns (start: bool)
      modifies this
      ensures forall s: State :: s.pending == old(pending) && s.running == old(running) ==>
                var t := Step(s, Arrive(job));
                t.pending == pending && t.running == running &&
                    (t.runners == if start then s.runners + [Starting] else s.runners)
    {
      pending := pending + [job];
      start := !running;
      running := true;
    }

    /** The locked part of runImageQueue: whether to go on, and with what. */
    method Next() returns (more: bool, job: Job)
      modifies this
      ensures forall s: State, r: nat | r < |s.runners| && s.runners[r].Looking? && s.pending == old(pending) &&
              s.running == old(running) ::
                var t := Step(s, Take(r));
                t.pending == pending && t.running == running && t.runners[r] == if more then Working(job) else Gone
    {
      if pending == [] {
        running := false;
        return false, "";
      }
      job := pending[0];
      pending := pending[1..];
      more := true;
    }
  }
}
