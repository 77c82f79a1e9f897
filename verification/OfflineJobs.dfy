/** What the relay tells an installer while the centre is away (site/relay.go provision), traced
    back to what the centre knew when it computed the document the relay answers from. */
module OfflineJobs {
  import opened Wrappers
  import opened Centre
  import opened Rollout
  import opened Coherence

  /** provision, offline: the answer from the document held. `present` says whether the image
      file is in the site's directory. */
  function RelayAnswer(m: SiteMem, s: Serial, present: bool): Answer {
    if m.held.None? || s !in m.held.value.content.blades then Waiting
    else
      var b := m.held.value.content.blades[s];
      if b.install == Wipe then EraseJob
      else if b.image == "" || !b.netboot then NoRequest
      else if b.image !in m.held.value.content.images || !present then Waiting
      else Go(b.image)
  }

  // ---- The centre's own run inside a run of the whole system ----

  /** What happened at the centre during a run, in order. */
  function Trace(hash: Hash, es: seq<SysEvent>): seq<Event> {
    if es == [] then [] else
      var before := Trace(hash, es[..|es| - 1]);
      var at := AtCentre(SysAfter(hash, es[..|es| - 1]), es[|es| - 1]);
      if at.Some? then before + [at.value] else before
  }

  lemma {:induction false} CentreFollowsTrace(hash: Hash, es: seq<SysEvent>)
    ensures SysAfter(hash, es).centre == After(Trace(hash, es))
  {
    if es != [] {
      var before := Trace(hash, es[..|es| - 1]);
      CentreFollowsTrace(hash, es[..|es| - 1]);
      var at := AtCentre(SysAfter(hash, es[..|es| - 1]), es[|es| - 1]);
      if at.Some? {
        assert (before + [at.value])[..|before|] == before;
      }
    }
  }

  /** The history variable is what it claims to be. */
  lemma {:induction false} PastIsTheRun(hash: Hash, es: seq<SysEvent>, i: nat)
    requires i < |es|
    ensures |SysAfter(hash, es).past| == |es|
    ensures SysAfter(hash, es).past[i] == Moment(SysAfter(hash, es[..i]).centre, es[i])
    decreases |es|
  {
    var n := |es| - 1;
    if i < n {
      PastIsTheRun(hash, es[..n], i);
      assert es[..n][..i] == es[..i];
    } else if n > 0 {
      PastIsTheRun(hash, es[..n], 0);
    }
  }

  // ---- The theorem ----

  /** What an answer from a document amounts to, in terms of the rows it was computed from. */
  lemma RelayAnswerFromRows(c: Records, site: SiteId, m: SiteMem, s: Serial, present: bool)
    requires site in c.sites && m.held.Some? && m.held.value.content == ContentOf(c, site)
    ensures var answer := RelayAnswer(m, s, present);
            && (answer.Go? <==>
                  && present && Listed(c, site, s)
                  && c.blades[s].image != "" && c.blades[s].image in c.catalogue
                  && (c.blades[s].install == Pending
                      || (c.blades[s].install != Wipe && ProbeArmed(c.blades[s], c.clock))))
            && (answer.Go? ==> answer.image == c.blades[s].image)
            && (answer.EraseJob? <==> Listed(c, site, s) && c.blades[s].install == Wipe)
            && (answer.NoRequest? <==>
                  && Listed(c, site, s) && c.blades[s].install != Wipe
                  && (c.blades[s].image == ""
                      || (c.blades[s].install != Pending && !ProbeArmed(c.blades[s], c.clock))))
            && (!answer.Go? && !answer.EraseJob? && !answer.NoRequest? ==> answer == Waiting)
  {
  }

  lemma {:induction false} PastLength(hash: Hash, es: seq<SysEvent>)
    ensures |SysAfter(hash, es).past| == |es|
  {
    if es != [] {
      PastLength(hash, es[..|es| - 1]);
    }
  }

  /** The event that computed the document a site holds, and the centre's run up to it. */
  lemma HeldComesFrom(hash: Hash, es: seq<SysEvent>, site: SiteId)
    requires Mem(SysAfter(hash, es), site).held.Some?
    ensures var d := Mem(SysAfter(hash, es), site).held.value;
            && d.at < |es| && es[d.at].Compute?
            && var c := After(Trace(hash, es[..d.at])); site in c.sites && d.content == ContentOf(c, site)
  {
    HeldIsOneWholePastDocument(hash, es);
    var sys := SysAfter(hash, es);
    var d := Mem(sys, site).held.value;
    assert WholePast(hash, sys.past, site, d);
    PastLength(hash, es);
    PastIsTheRun(hash, es, d.at);
    CentreFollowsTrace(hash, es[..d.at]);
  }

  /** What a relay may answer, and when, if its document was computed after the run t of the centre. */
  ghost predicate AnswerFits(t: seq<Event>, site: SiteId, s: Serial, present: bool, answer: Answer) {
    var c := After(t);
    && (answer.Go? <==>
          && present && Listed(c, site, s)
          && c.blades[s].image != "" && c.blades[s].image in c.catalogue
          && (Standing(t, s, Install) || (!Standing(t, s, Erase) && ProbeArmed(c.blades[s], c.clock))))
    && (answer.Go? ==> answer.image == c.blades[s].image)
    && (answer.EraseJob? <==> Listed(c, site, s) && Standing(t, s, Erase))
    && (answer.NoRequest? <==>
          && Listed(c, site, s) && !Standing(t, s, Erase)
          && (c.blades[s].image == "" || (!Standing(t, s, Install) && !ProbeArmed(c.blades[s], c.clock))))
    && (!answer.Go? && !answer.EraseJob? && !answer.NoRequest? ==> answer == Waiting)
  }

  lemma AnswerFitsRun(t: seq<Event>, site: SiteId, m: SiteMem, s: Serial, present: bool)
    requires site in After(t).sites && m.held.Some? && m.held.value.content == ContentOf(After(t), site)
    ensures AnswerFits(t, site, s, present, RelayAnswer(m, s, present))
  {
    RelayAnswerFromRows(After(t), site, m, s, present);
    ArmedIffStanding(t, s, Install);
    ArmedIffStanding(t, s, Erase);
  }

  /** Over every run: a relay that answers by itself says "go" exactly when, at the moment its
      document was computed, the blade stood at this site with a catalogued image and either an install
      request stood or, no erase standing, a firmware reading was armed; it hands out an erase exactly when
      one stood then, image or not; it says "idle" exactly when the blade stood here, no erase stood, and there was no
      image or neither an install nor a reading; and "waiting" otherwise. */
  lemma OfflineAnswerMeans(hash: Hash, es: seq<SysEvent>, site: SiteId, s: Serial, present: bool)
    requires Mem(SysAfter(hash, es), site).held.Some?
    ensures var m := Mem(SysAfter(hash, es), site);
            var k := m.held.value.at;
            && k < |es| && es[k].Compute?
            && AnswerFits(Trace(hash, es[..k]), site, s, present, RelayAnswer(m, s, present))
  {
    HeldComesFrom(hash, es, site);
    var m := Mem(SysAfter(hash, es), site);
    AnswerFitsRun(Trace(hash, es[..m.held.value.at]), site, m, s, present);
  }

  // ---- Centre and relay side by side ----

  /** What the installer does with an answer: only "go" writes and only "wipe" erases; "idle" is the one answer on which
      it may restart into the system on the disk. */
  datatype Deed = Write(image: string) | EraseDisk | RestartOrAsk | KeepAsking

  function DeedOf(answer: Answer): (d: Deed)
    ensures d.RestartOrAsk? <==> answer.NoRequest?
  {
    match answer
    case Go(image) => Write(image)
    case EraseJob => EraseDisk
    case NoRequest => RestartOrAsk
    case _ => KeepAsking
  }

  // ---- The installer's loop ----

  /** One question: when it was put, what came back, if anything readable did, and whether the disk in question looks
      installed. */
  datatype Asking = Asking(clock: nat, reply: Option<Answer>, installed: bool)

  const MINUTE: nat := 60 * TICKS

  predicate IsJob(a: Asking) {
    a.reply.Some? && (DeedOf(a.reply.value).Write? || DeedOf(a.reply.value).EraseDisk?)
  }

  predicate IsIdle(a: Asking) {
    a.reply == Some(NoRequest)
  }

  /** The first "idle" of the loop. Its time is taken once and never again, whatever is answered in between. */
  predicate FirstIdle(asked: seq<Asking>, i: nat) {
    i < |asked| && IsIdle(asked[i]) && forall j :: 0 <= j < i ==> !IsIdle(asked[j])
  }

  /** A blade with a system on its disk that is told "idle" more than a minute after the first "idle". */
  predicate RestartDue(asked: seq<Asking>, k: nat) {
    && k < |asked| && IsIdle(asked[k]) && asked[k].installed
    && exists i :: 0 <= i <= k && FirstIdle(asked, i) && asked[k].clock > asked[i].clock + MINUTE
  }

  datatype Leaves = DoJob(job: Answer) | RestartIntoSystem | StillAsking

  /** The loop is left at the first answer that is a job, and does that job; or, before any, at the first "idle" that
      makes a restart due, having written nothing. */
  ghost predicate LeftAt(asked: seq<Asking>, leaves: Leaves, n: nat) {
    && n <= |asked| && (forall k :: 0 <= k < n - 1 ==> !IsJob(asked[k]) && !RestartDue(asked, k))
    && (leaves.DoJob? ==> n > 0 && IsJob(asked[n - 1]) && asked[n - 1].reply == Some(leaves.job))
    && (leaves.RestartIntoSystem? ==> n > 0 && !IsJob(asked[n - 1]) && RestartDue(asked, n - 1))
    && (leaves.StillAsking? ==> n == |asked| && forall k :: 0 <= k < n ==> !IsJob(asked[k]) && !RestartDue(asked, k))
  }

  method WaitForJob(asked: seq<Asking>) returns (leaves: Leaves, n: nat)
    ensures LeftAt(asked, leaves, n)
  {
    n := 0;
    var idleSince: Option<nat> := None;
    ghost var first: nat := 0;
    while n < |asked|
      invariant n <= |asked|
      invariant forall k :: 0 <= k < n ==> !IsJob(asked[k]) && !RestartDue(asked, k)
      invariant idleSince.None? ==> forall k :: 0 <= k < n ==> !IsIdle(asked[k])
      invariant idleSince.Some? ==> first < n && FirstIdle(asked, first) && idleSince.value == asked[first].clock
    {
      var a := asked[n];
      n := n + 1;
      if a.reply.Some? {
        if a.reply.value.Go? || a.reply.value.EraseJob? {
          return DoJob(a.reply.value), n;
        }
        if a.reply.value.NoRequest? {
          if idleSince.None? {
            idleSince, first := Some(a.clock), n - 1;
          }
          assert forall i: nat :: FirstIdle(asked, i) <==> i == first;
          if a.installed && a.clock > idleSince.value + MINUTE {
            return RestartIntoSystem, n;
          }
        }
      }
    }
    return StillAsking, n;
  }

  /** A blade with a system on its disk that is told nothing but "idle" for more than a minute: the installer has
      restarted into the system, and done no job. */
  lemma IdleRestarts(asked: seq<Asking>, leaves: Leaves, n: nat)
    requires forall i :: 0 <= i < |asked| ==> asked[i].installed && asked[i].reply == Some(NoRequest)
    requires |asked| > 1 && asked[|asked| - 1].clock > asked[0].clock + 60_000
    requires LeftAt(asked, leaves, n)
    ensures leaves == RestartIntoSystem
  {
    assert forall i :: 0 <= i < |asked| ==> IsIdle(asked[i]) && !IsJob(asked[i]);
    assert FirstIdle(asked, 0);
    assert RestartDue(asked, |asked| - 1);
  }

  /** When the document this site holds was computed, the blade stood here and nothing was requested of it. */
  ghost predicate NothingRequested(t: seq<Event>, site: SiteId, s: Serial) {
    var c := After(t);
    && Listed(c, site, s) && !Standing(t, s, Erase) && !Standing(t, s, Install) && !ProbeArmed(c.blades[s], c.clock)
  }

  lemma NothingRequestedIsIdle(hash: Hash, es: seq<SysEvent>, site: SiteId, s: Serial, present: bool)
    requires var held := Mem(SysAfter(hash, es), site).held;
             held.Some? && held.value.at < |es| && NothingRequested(Trace(hash, es[..held.value.at]), site, s)
    ensures RelayAnswer(Mem(SysAfter(hash, es), site), s, present) == NoRequest
  {
    OfflineAnswerMeans(hash, es, site, s, present);
  }

  /** So over every run: a finished blade that netboots while the line is down, answered by its site all along, restarts
      into its system. */
  lemma FinishedBladeRestarts(hash: Hash, es: seq<SysEvent>, site: SiteId, s: Serial, present: bool,
                              asked: seq<Asking>, leaves: Leaves, n: nat)
    requires var held := Mem(SysAfter(hash, es), site).held;
             held.Some? && held.value.at < |es| && NothingRequested(Trace(hash, es[..held.value.at]), site, s)
    requires var answer := RelayAnswer(Mem(SysAfter(hash, es), site), s, present);
             forall i :: 0 <= i < |asked| ==> asked[i].installed && asked[i].reply == Some(answer)
    requires |asked| > 1 && asked[|asked| - 1].clock > asked[0].clock + 60_000
    requires LeftAt(asked, leaves, n)
    ensures leaves == RestartIntoSystem
  {
    NothingRequestedIsIdle(hash, es, site, s, present);
    IdleRestarts(asked, leaves, n);
  }

  /** Asked about the same rows at the same instant, with the image file at hand, the relay makes the
      installer do what the centre would, exactly if the blade has an image and no firmware reading is armed on it
      without an install or an erase. */
  lemma FreshRelayAgreesIff(c: Records, site: SiteId, m: SiteMem, s: Serial)
    requires site in c.sites && Listed(c, site, s)
    requires m.held.Some? && m.held.value.content == ContentOf(c, site)
    ensures var b := c.blades[s];
            DeedOf(RelayAnswer(m, s, true)) == DeedOf(Decide(c, b)) <==>
            b.image != "" && (b.install == Wipe || b.install == Pending || !ProbeArmed(b, c.clock))
  {
    RelayAnswerFromRows(c, site, m, s, true);
  }
}
