/** The two buffers of a site as they run: the relay's reports (site/relay.go forwardOrQueue and drain),
    the site's own events (site/site.go note, stageIP and flush), and the spool each is copied to
    (site/spool.go). */
module RelayQueue {
  import opened Spool

  /** Which outcome the k-th send of a drain has. */
  type Line = nat -> Outcome

  ghost predicate UpFor(line: Line, k: nat) {
    forall i: nat :: i < k ==> !line(i).Unreachable?
  }

  /** The bodies that come in before the k-th send of a drain. */
  type Meanwhile = nat -> seq<string>

  /** The machine after these arrivals. */
  function Arrivals(s: State, bodies: seq<string>): State {
    if bodies == [] then s else Step(MAX_PENDING, Arrivals(s, bodies[..|bodies| - 1]), Enqueue(bodies[|bodies| - 1]))
  }

  /** Arrivals neither see nor touch the batches under way. */
  lemma {:induction false} ArrivalsLeaveBatches(s: State, bodies: seq<string>, bs: seq<seq<Report>>)
    ensures Arrivals(s.(batches := bs), bodies) == Arrivals(s, bodies).(batches := bs)
    ensures Arrivals(s, bodies).batches == s.batches
  {
    if bodies != [] { ArrivalsLeaveBatches(s, bodies[..|bodies| - 1], bs); }
  }

  /** The machine after a drain has taken `batch` and sent k reports of it, others arriving before each send. */
  ghost function Draining(s: State, batch: seq<Report>, line: Line, others: Meanwhile, k: nat): (r: State)
    requires k <= |batch| && UpFor(line, k)
    ensures r.batches == [batch[k..]]
  {
    if k == 0 then s.(pending := [], batches := [batch])
    else
      var before := Draining(s, batch, line, others, k - 1);
      ArrivalsLeaveBatches(before, others(k - 1), []);
      assert batch[k - 1..][1..] == batch[k..];
      Sent(Arrivals(before, others(k - 1)), 0, line(k - 1))
  }

  /** Where a drain ends: all sent, or the rest put back at the first report that could not be, in front of what came
      in meanwhile. */
  ghost function Drained(s: State, batch: seq<Report>, line: Line, others: Meanwhile, k: nat): (r: State)
    requires k <= |batch| && UpFor(line, k)
  {
    var t := Draining(s, batch, line, others, k);
    ArrivalsLeaveBatches(t, others(k), []);
    if k < |batch| then Sent(Arrivals(t, others(k)), 0, Unreachable) else t
  }

  // ---- What a drain comes to ----

  /** Of the first k reports of the batch, those whose send ended so, in order. */
  function Those(batch: seq<Report>, line: Line, k: nat, outcome: Outcome): seq<Report>
    requires k <= |batch|
  {
    if k == 0 then [] else Those(batch, line, k - 1, outcome) + if line(k - 1) == outcome then [batch[k - 1]] else []
  }

  /** The machine, its queue emptied, after what others bring before the first k sends and nothing else. */
  ghost function BroughtIn(s: State, others: Meanwhile, k: nat): State {
    if k == 0 then s.(pending := []) else Arrivals(BroughtIn(s, others, k - 1), others(k - 1))
  }

  /** Arrivals neither see nor touch what has been settled by sending. */
  lemma {:induction false} ArrivalsLeaveSent(s: State, bodies: seq<string>, bs: seq<seq<Report>>, d: seq<Report>,
      m: seq<Report>)
    ensures Arrivals(s.(batches := bs, delivered := d, malformed := m), bodies)
            == Arrivals(s, bodies).(batches := bs, delivered := d, malformed := m)
    ensures Arrivals(s, bodies).delivered == s.delivered && Arrivals(s, bodies).malformed == s.malformed
  {
    if bodies != [] { ArrivalsLeaveSent(s, bodies[..|bodies| - 1], bs, d, m); }
  }

  /** While the line is up every report of the batch leaves it, in order: to the centre, or aside if it could not be
      made into a request. */
  lemma {:induction false} DrainingMeans(s: State, batch: seq<Report>, line: Line, others: Meanwhile, k: nat)
    requires k <= |batch| && UpFor(line, k)
    ensures Draining(s, batch, line, others, k) ==
            BroughtIn(s, others, k).(batches := [batch[k..]],
                                     delivered := s.delivered + Those(batch, line, k, Delivered),
                                     malformed := s.malformed + Those(batch, line, k, BadRequest))
  {
    if k == 0 {
      assert batch[0..] == batch;
    } else {
      DrainingMeans(s, batch, line, others, k - 1);
      var d := s.delivered + Those(batch, line, k - 1, Delivered);
      var m := s.malformed + Those(batch, line, k - 1, BadRequest);
      ArrivalsLeaveSent(BroughtIn(s, others, k - 1), others(k - 1), [batch[k - 1..]], d, m);
      assert batch[k - 1..][1..] == batch[k..];
      assert d + [batch[k - 1]] == s.delivered + (Those(batch, line, k - 1, Delivered) + [batch[k - 1]]);
      assert m + [batch[k - 1]] == s.malformed + (Those(batch, line, k - 1, BadRequest) + [batch[k - 1]]);
    }
  }

  /** A drain over a line that stays up to the k-th report: those before it have been delivered or set aside, whatever
      the others brought in; it and all behind it wait again, in order and in front of what came in. */
  lemma DrainMeans(s: State, batch: seq<Report>, line: Line, others: Meanwhile, k: nat)
    requires k <= |batch| && UpFor(line, k)
    ensures var t := Drained(s, batch, line, others, k);
            && t.delivered == s.delivered + Those(batch, line, k, Delivered)
            && t.malformed == s.malformed + Those(batch, line, k, BadRequest)
            && t.pending == batch[k..] + BroughtIn(s, others, if k < |batch| then k + 1 else k).pending
            && t.batches == [[]]
  {
    DrainingMeans(s, batch, line, others, k);
    var d := s.delivered + Those(batch, line, k, Delivered);
    var m := s.malformed + Those(batch, line, k, BadRequest);
    ArrivalsLeaveSent(BroughtIn(s, others, k), others(k), [batch[k..]], d, m);
  }

  class ReportQueue {
    var pending: seq<Report>
    var dirty: bool
    var disk: seq<Report>
    // History, as in the machine: a report is told apart by its arrival number.
    var arrived: seq<Report>
    var delivered: seq<Report>
    var dropped: seq<Report>
    var malformed: seq<Report>

    /** While the flag is down, what is on disk is what is waiting. */
    ghost predicate Valid()
      reads this
    {
      !dirty ==> disk == pending
    }

    /** The machine's view of this queue between two drains. */
    ghost function View(): State
      reads this
    {
      State(pending, [], [], disk, arrived, delivered, dropped, malformed, {})
    }

    constructor (file: seq<Report>)
      ensures Valid() && pending == disk == file && !dirty
      ensures arrived == file && delivered == dropped == malformed == []
    {
      pending, disk, dirty := file, file, false;
      arrived, delivered, dropped, malformed := file, [], [], [];
    }

    /** touch never writes: what is on disk stays as it was, and is owed a write. */
    method Touch()
      modifies this`dirty
      ensures dirty && Valid()
    {
      dirty := true;
    }

    /** The queueing half of forwardOrQueue, reached when the centre did not answer. */
    method Queue(body: string) returns (queued: bool, waiting: nat)
      requires Valid()
      modifies this
      ensures Valid() && (old(dirty) ==> dirty) && disk == old(disk)
      ensures View() == Step(MAX_PENDING, old(View()), Enqueue(body))
      ensures queued <==> |body| <= 262_144
      ensures queued ==> waiting == |pending| <= 5000
    {
      if |body| > MAX_BODY {
        return false, |pending|;
      }
      if |pending| >= MAX_PENDING {
        var n := |pending| - MAX_PENDING / 2;
        dropped := dropped + pending[..n];
        pending := pending[n..];
      }
      var r := Report(|arrived|, body);
      pending := pending + [r];
      arrived := arrived + [r];
      Touch();
      return true, |pending|;
    }

    /** Several reports, one after the other. */
    method QueueAll(bodies: seq<string>)
      requires Valid()
      modifies this
      ensures Valid() && (old(dirty) ==> dirty) && disk == old(disk)
      ensures View() == Arrivals(old(View()), bodies)
    {
      var k := 0;
      while k < |bodies|
        invariant k <= |bodies| && Valid() && (old(dirty) ==> dirty) && disk == old(disk)
        invariant View() == Arrivals(old(View()), bodies[..k])
      {
        assert bodies[..k + 1][..k] == bodies[..k];
        var queued, waiting := Queue(bodies[k]);
        k := k + 1;
      }
      assert bodies[..k] == bodies;
    }

    /** One turn of the drain's loop: the first report of the rest goes, or all of the rest goes back in front. */
    method SendFirst(rest: seq<Report>, outcome: Outcome) returns (goOn: bool)
      requires rest != [] && dirty
      modifies this
      ensures dirty && disk == old(disk) && (goOn <==> !outcome.Unreachable?)
      ensures View().(batches := [if goOn then rest[1..] else []]) == Sent(old(View()).(batches := [rest]), 0, outcome)
    {
      match outcome {
        case Unreachable =>
          pending := rest + pending;
          Touch();
          return false;
        case Delivered =>
          delivered := delivered + [rest[0]];
        case BadRequest =>
          malformed := malformed + [rest[0]];
      }
      return true;
    }

    /** Others come in, then one report goes or the rest goes back. */
    method Turn(batch: seq<Report>, k: nat, line: Line, others: Meanwhile, ghost start: State) returns (goOn: bool)
      requires k < |batch| && UpFor(line, k) && dirty
      requires View().(batches := [batch[k..]]) == Draining(start, batch, line, others, k)
      modifies this
      ensures dirty && disk == old(disk) && (goOn <==> !line(k).Unreachable?)
      ensures goOn ==>
              UpFor(line, k + 1) && View().(batches := [batch[k + 1..]]) == Draining(start, batch, line, others, k + 1)
      ensures !goOn ==> View().(batches := [[]]) == Drained(start, batch, line, others, k)
    {
      ghost var before := View();
      QueueAll(others(k));
      ArrivalsLeaveBatches(before, others(k), [batch[k..]]);
      goOn := SendFirst(batch[k..], line(k));
      assert batch[k..][1..] == batch[k + 1..];
    }

    /** The loop of drain. */
    method SendBatch(batch: seq<Report>, line: Line, others: Meanwhile, ghost start: State) returns (handled: nat)
      requires dirty && View().(batches := [batch]) == Draining(start, batch, line, others, 0)
      modifies this
      ensures dirty && disk == old(disk) && handled <= |batch| && UpFor(line, handled)
      ensures handled < |batch| ==> line(handled).Unreachable?
      ensures View().(batches := [[]]) == Drained(start, batch, line, others, handled)
    {
      handled := 0;
      assert batch[0..] == batch;
      while handled < |batch|
        invariant handled <= |batch| && UpFor(line, handled) && dirty && disk == old(disk)
        invariant View().(batches := [batch[handled..]]) == Draining(start, batch, line, others, handled)
      {
        var goOn := Turn(batch, handled, line, others, start);
        if !goOn { return; }
        handled := handled + 1;
      }
      assert batch[handled..] == [];
    }

    /** drain: takes everything, sends oldest first, and puts back from the first report that could not be sent, while
        others come in before every send. The queue ends as the machine does; the spool is written on the way out. */
    method Drain(line: Line, others: Meanwhile, writes: bool) returns (handled: nat)
      requires Valid()
      modifies this
      ensures Valid()
      ensures handled <= |old(pending)| && UpFor(line, handled)
      ensures handled < |old(pending)| ==> line(handled).Unreachable?
      ensures old(pending) != [] ==>
                View().(batches := [[]], disk := old(disk)) == Drained(old(View()), old(pending), line, others, handled)
      ensures old(pending) == [] ==> View() == old(View())
      ensures writes && old(pending) != [] ==> disk == pending
    {
      ghost var start := View();
      var batch := pending;
      pending := [];
      if |batch| == 0 {
        assert View() == start;
        return 0;
      }
      Touch();
      handled := SendBatch(batch, line, others, start);
      WriteIfDirty(writes);
    }

    /** writeIfDirty: the flag comes down before the copy is taken, and goes up again if the write fails. */
    method WriteIfDirty(writes: bool)
      requires Valid()
      modifies this`dirty, this`disk
      ensures Valid()
      ensures writes ==> disk == pending && !dirty
      ensures !writes ==> disk == old(disk) && dirty == old(dirty)
    {
      var was := dirty;
      dirty := false;
      if !was {
        return;
      }
      if writes {
        disk := pending;
      } else {
        Touch();
      }
    }
  }

  // ---- The site's own events ----

  const MAX_QUEUED := 2000

  class EventBuffer {
    var queue: seq<Report>
    var seen: nat

    constructor (file: seq<Report>)
      ensures queue == file && seen == 0
    {
      queue, seen := file, 0;
    }

    /** note: bounded, whatever is in the buffer when it is called. */
    method Note(body: string)
      modifies this
      ensures queue == Enqueued(old(queue), Report(old(seen), body), MAX_QUEUED)
      ensures |queue| <= 2000
      ensures seen == old(seen) + 1
    {
      ArrivalBoundsQueue(queue, Report(seen, body), MAX_QUEUED);
      if |queue| >= MAX_QUEUED {
        queue := queue[|queue| - MAX_QUEUED / 2..];
      }
      queue := queue + [Report(seen, body)];
      seen := seen + 1;
    }

    /** stageIP: appends without looking, so the buffer stays within its bound exactly while it was below it. */
    method Stage(body: string)
      modifies this
      ensures queue == old(queue) + [Report(old(seen), body)]
      ensures |queue| <= MAX_QUEUED <==> |old(queue)| < MAX_QUEUED
      ensures seen == old(seen) + 1
    {
      queue := queue + [Report(seen, body)];
      seen := seen + 1;
    }

    /** flush: all or nothing, and what was not delivered goes back in front of what came in meanwhile. */
    method Flush(accepted: bool, meanwhile: seq<Report>) returns (delivered: seq<Report>)
      modifies this`queue
      ensures accepted || old(queue) == [] ==> delivered == old(queue) && queue == meanwhile
      ensures !accepted ==> delivered == [] && queue == old(queue) + meanwhile
    {
      var batch := queue;
      queue := meanwhile;
      if batch == [] {
        return [];
      }
      if accepted {
        return batch;
      }
      queue := batch + queue;
      return [];
    }
  }
}
