/** Reading the firmware of a running blade: the restart must come after the netboot tag has been given to the
    site (server/db.go requestProbe and probeStep, server/api.go hSiteDesired). Giving is not having: the answer may be
    lost on the way. */
module ProbeOrder {
  import opened Wrappers
  import opened Centre
  import opened Rollout
  import opened Coherence

  ghost predicate ClockRuns(sys: System) {
    && (forall i, j :: 0 <= i <= j < |sys.past| ==> sys.past[i].before.clock <= sys.past[j].before.clock)
    && (forall i :: 0 <= i < |sys.past| ==> sys.past[i].before.clock <= sys.centre.clock)
  }

  /** desired_at is the second in which the last full document was given, and that document was
      computed before it was given. */
  ghost predicate GivenMatches(hash: Hash, sys: System, site: SiteId) {
    site in sys.centre.sites && sys.centre.sites[site].desiredAt.Some? ==>
      && site in sys.given
      && var g := sys.given[site];
         && g.at < |sys.past| && g.doc.at < g.at
         && sys.centre.sites[site].desiredAt == Some(Stamp(sys.past[g.at].before.clock))
         && WholePast(hash, sys.past, site, g.doc)
  }

  /** The arming a blade carries was made by the event recorded, in the second stamped, and has
      stood at every moment since. */
  ghost predicate ArmingStands(sys: System, s: Serial) {
    ProbeOf(sys.centre, s).Some? ==>
      && s in sys.armed
      && var a := sys.armed[s];
         && a < |sys.past|
         && sys.past[a].event == Central(RequestProbe(s))
         && ProbeOf(sys.centre, s) == Some(Stamp(sys.past[a].before.clock))
         && forall k :: a < k < |sys.past| ==> ProbeOf(sys.past[k].before, s) == ProbeOf(sys.centre, s)
  }

  ghost predicate Ordered(hash: Hash, sys: System) {
    && ClockRuns(sys)
    && (forall i: SiteId :: GivenMatches(hash, sys, i))
    && (forall s: Serial :: ArmingStands(sys, s))
  }

  lemma ClockStep(hash: Hash, sys: System, e: SysEvent)
    requires ClockRuns(sys)
    ensures ClockRuns(SysStep(hash, sys, e))
  {
    var at := AtCentre(sys, e);
    if at.Some? {
      StepKeepsClockAndSites(sys.centre, at.value);
    }
  }

  lemma DocsComputedBefore(hash: Hash, sys: System, p: nat)
    requires AllWhole(hash, sys) && p in sys.passes && !sys.passes[p].Asked?
    ensures WholePast(hash, sys.past, sys.passes[p].site, sys.passes[p].built)
    ensures sys.passes[p].built.at < |sys.past|
  {
    assert PassWhole(hash, sys.past, sys.passes[p]);
  }

  lemma GivenStep(hash: Hash, sys: System, e: SysEvent, site: SiteId)
    requires AllWhole(hash, sys) && GivenMatches(hash, sys, site)
    ensures GivenMatches(hash, SysStep(hash, sys, e), site)
  {
    var at := AtCentre(sys, e);
    var next := SysStep(hash, sys, e);
    assert next.past == sys.past + [Moment(sys.centre, e)];
    if at.Some? && at.value.HandOut? {
      DocsComputedBefore(hash, sys, e.p);
      if at.value.siteId == site {
        assert site in sys.centre.sites ==> next.centre.sites[site].desiredAt == Some(Stamp(sys.centre.clock));
        assert next.given[site] == Given(sys.passes[e.p].built, |sys.past|);
      } else {
        assert site in next.centre.sites ==> next.centre.sites[site] == sys.centre.sites[site];
      }
    } else {
      assert next.given == sys.given;
      if at.Some? {
        StepKeepsClockAndSites(sys.centre, at.value);
      }
    }
  }

  lemma ArmingStep(hash: Hash, sys: System, e: SysEvent, s: Serial)
    requires ArmingStands(sys, s)
    ensures ArmingStands(SysStep(hash, sys, e), s)
  {
    var at := AtCentre(sys, e);
    var next := SysStep(hash, sys, e);
    assert next.past == sys.past + [Moment(sys.centre, e)];
    if at.Some? {
      ProbeOnlyByRequest(sys.centre, at.value, s);
    }
    if at.Some? && ArmsProbe(sys.centre, at.value) && at.value.serial == s {
      assert next.armed[s] == |sys.past|;
    } else {
      assert s in sys.armed ==> s in next.armed && next.armed[s] == sys.armed[s];
      assert ProbeOf(next.centre, s) == None || ProbeOf(next.centre, s) == ProbeOf(sys.centre, s);
    }
  }

  lemma {:induction false} AlwaysOrdered(hash: Hash, es: seq<SysEvent>)
    ensures Ordered(hash, SysAfter(hash, es))
  {
    if es != [] {
      var before := es[..|es| - 1];
      var sys, e := SysAfter(hash, before), es[|es| - 1];
      AlwaysOrdered(hash, before);
      HeldIsOneWholePastDocument(hash, before);
      ClockStep(hash, sys, e);
      forall i: SiteId ensures GivenMatches(hash, SysStep(hash, sys, e), i) {
        GivenStep(hash, sys, e, i);
      }
      forall s: Serial ensures ArmingStands(SysStep(hash, sys, e), s) {
        ArmingStep(hash, sys, e, s);
      }
    }
  }

  /** probeStep restarts the blade, and does so because its site has fetched since the arming. */
  ghost predicate Restarts(sys: System, s: Serial) {
    && s in sys.centre.blades
    && sys.centre.blades[s].probe.Some?
    && ProbeDecision(sys.centre, sys.centre.blades[s]) == Centre.Restart(true)
  }

  /** The last full document its site was given was given after the arming. If it was also computed after
      the arming, the arming already stood in it, and unless the blade stood elsewhere then, it carries the
      blade's netboot tag. */
  ghost predicate TagGiven(hash: Hash, sys: System, s: Serial)
    requires s in sys.centre.blades
  {
    var b := sys.centre.blades[s];
    && b.at.Some? && b.at.value in sys.given && s in sys.armed
    && var site, a, g := b.at.value, sys.armed[s], sys.given[b.at.value];
       && a < g.at < |sys.past| && sys.past[a].event == Central(RequestProbe(s))
       && WholePast(hash, sys.past, site, g.doc)
       && (a < g.doc.at ==>
             && ProbeOf(sys.past[g.doc.at].before, s) == b.probe
             && (Listed(sys.past[g.doc.at].before, site, s) ==>
                   s in g.doc.content.blades && g.doc.content.blades[s].netboot))
  }

  lemma RestartInOrderedSystem(hash: Hash, sys: System, s: Serial)
    requires Ordered(hash, sys) && Restarts(sys, s)
    ensures TagGiven(hash, sys, s)
  {
    var b := sys.centre.blades[s];
    assert GivenMatches(hash, sys, b.at.value);
    assert ArmingStands(sys, s);
    var a, g := sys.armed[s], sys.given[b.at.value];
    assert Stamp(sys.past[g.at].before.clock) > Stamp(sys.past[a].before.clock);
    assert a < g.at;
    if a < g.doc.at {
      var rows := sys.past[g.doc.at].before;
      assert ProbeOf(rows, s) == b.probe;
      assert ProbeArmed(rows.blades[s], rows.clock);
    }
  }

  /** Over every run, whenever probeStep restarts a blade because its site has fetched since the arming. */
  lemma RestartComesAfterTheTag(hash: Hash, es: seq<SysEvent>, s: Serial)
    requires Restarts(SysAfter(hash, es), s)
    ensures TagGiven(hash, SysAfter(hash, es), s)
  {
    AlwaysOrdered(hash, es);
    RestartInOrderedSystem(hash, SysAfter(hash, es), s);
  }

  // ---- Whether an arming slipped in ----

  /** A firmware reading of this blade was armed at this moment. */
  predicate Arms(m: Moment, s: Serial) {
    m.event == Central(RequestProbe(s)) && ArmsProbe(m.before, m.event.e)
  }

  /** Nothing has armed the blade since the event recorded, and nothing ever if none is. */
  ghost predicate ArmedIsLast(sys: System, s: Serial) {
    && (s in sys.armed ==> sys.armed[s] < |sys.past| && Arms(sys.past[sys.armed[s]], s))
    && forall k :: 0 <= k < |sys.past| && Arms(sys.past[k], s) ==> s in sys.armed && k <= sys.armed[s]
  }

  lemma ArmedIsLastStep(hash: Hash, sys: System, e: SysEvent, s: Serial)
    requires ArmedIsLast(sys, s)
    ensures ArmedIsLast(SysStep(hash, sys, e), s)
  {
    var n := |sys.past|;
    var next := SysStep(hash, sys, e);
    assert next.past[n] == Moment(sys.centre, e);
    assert forall k :: 0 <= k < n ==> next.past[k] == sys.past[k];
  }

  lemma {:induction false} AlwaysLast(hash: Hash, es: seq<SysEvent>, s: Serial)
    ensures ArmedIsLast(SysAfter(hash, es), s)
  {
    if es != [] {
      AlwaysLast(hash, es[..|es| - 1], s);
      ArmedIsLastStep(hash, SysAfter(hash, es[..|es| - 1]), es[|es| - 1], s);
    }
  }

  /** No arming of the blade was accepted between computing the document its site was last given and giving it. */
  ghost predicate NoArmingBetween(sys: System, g: Given, s: Serial)
    requires g.at <= |sys.past|
  {
    forall k :: g.doc.at < k < g.at ==> !Arms(sys.past[k], s)
  }

  lemma TagDecidedByGap(hash: Hash, sys: System, s: Serial)
    requires Restarts(sys, s) && TagGiven(hash, sys, s) && ArmedIsLast(sys, s)
    ensures var g := sys.given[sys.centre.blades[s].at.value];
            sys.armed[s] < g.doc.at <==> NoArmingBetween(sys, g, s)
  {
    var g, a := sys.given[sys.centre.blades[s].at.value], sys.armed[s];
    assert sys.past[g.doc.at].event.Compute?;
    assert Arms(sys.past[a], s);
  }

  /** Over every run, whenever probeStep restarts a blade because its site has fetched since the arming: the document it
      was given was computed after the arming exactly if no arming of that blade was accepted between computing it and
      giving it, whatever else happened then; and if so it carries the tag of a blade that stood at the site. */
  lemma TagCarriedIff(hash: Hash, es: seq<SysEvent>, s: Serial)
    requires Restarts(SysAfter(hash, es), s)
    ensures TagGiven(hash, SysAfter(hash, es), s)
    ensures var sys := SysAfter(hash, es);
            var site := sys.centre.blades[s].at.value;
            var g := sys.given[site];
            && (sys.armed[s] < g.doc.at <==> NoArmingBetween(sys, g, s))
            && (NoArmingBetween(sys, g, s) && Listed(sys.past[g.doc.at].before, site, s) ==>
                  s in g.doc.content.blades && g.doc.content.blades[s].netboot)
  {
    RestartComesAfterTheTag(hash, es, s);
    AlwaysLast(hash, es, s);
    TagDecidedByGap(hash, SysAfter(hash, es), s);
  }
}
