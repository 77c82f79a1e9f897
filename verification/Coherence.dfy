/** What a site holds is always one whole document of the centre's past; and, as long as the
    passes of a site do not overlap, it is the one its version names. */
module Coherence {
  import opened Wrappers
  import opened Centre
  import opened Rollout

  // ---- Whole documents of the past ----

  /** d is the document the centre computed for this site at event d.at. */
  ghost predicate WholePast(hash: Hash, past: seq<Moment>, site: SiteId, d: Doc) {
    && d.at < |past|
    && past[d.at].event.Compute?
    && site in past[d.at].before.sites
    && d.content == ContentOf(past[d.at].before, site)
    && d.version == Version(hash, d.content)
  }

  ghost predicate IfWhole(hash: Hash, past: seq<Moment>, site: SiteId, d: Option<Doc>) {
    d.Some? ==> WholePast(hash, past, site, d.value)
  }

  ghost predicate PassWhole(hash: Hash, past: seq<Moment>, q: Pass) {
    && (!q.Asked? ==> WholePast(hash, past, q.site, q.built))
    && (q.Got? ==> IfWhole(hash, past, q.site, q.doc))
  }

  ghost predicate MemWhole(hash: Hash, past: seq<Moment>, site: SiteId, m: SiteMem) {
    IfWhole(hash, past, site, m.held) && IfWhole(hash, past, site, m.disk)
  }

  ghost predicate AllWhole(hash: Hash, sys: System) {
    && (forall i :: i in sys.sites ==> MemWhole(hash, sys.past, i, sys.sites[i]))
    && (forall p :: p in sys.passes ==> PassWhole(hash, sys.past, sys.passes[p]))
  }

  lemma PassWholeGrows(hash: Hash, past: seq<Moment>, q: Pass, m: Moment)
    requires PassWhole(hash, past, q)
    ensures PassWhole(hash, past + [m], q)
  {
  }

  lemma PassWholeStep(hash: Hash, sys: System, p: nat, e: SysEvent)
    requires AllWhole(hash, sys) && p in sys.passes
    ensures PassWhole(hash, sys.past + [Moment(sys.centre, e)], PassStep(hash, sys, sys.passes[p], e))
  {
    var q := sys.passes[p];
    PassWholeGrows(hash, sys.past, q, Moment(sys.centre, e));
    if q.Unchanged? && e.Receive? {
      var m := Mem(sys, q.site);
      assert IfWhole(hash, sys.past, q.site, m.held);
    }
  }

  lemma WholePasses(hash: Hash, sys: System, e: SysEvent)
    requires AllWhole(hash, sys)
    ensures var after := PassesStep(hash, sys, e);
            forall p :: p in after ==> PassWhole(hash, sys.past + [Moment(sys.centre, e)], after[p])
  {
    var after := PassesStep(hash, sys, e);
    forall p | p in after
      ensures PassWhole(hash, sys.past + [Moment(sys.centre, e)], after[p])
    {
      if p in sys.passes {
        PassWholeGrows(hash, sys.past, sys.passes[p], Moment(sys.centre, e));
        PassWholeStep(hash, sys, p, e);
      }
    }
  }

  lemma WholeSites(hash: Hash, sys: System, e: SysEvent)
    requires AllWhole(hash, sys)
    ensures var after := SiteStep(sys, e);
            forall i :: i in after ==> MemWhole(hash, sys.past + [Moment(sys.centre, e)], i, after[i])
  {
    var more := sys.past + [Moment(sys.centre, e)];
    var after := SiteStep(sys, e);
    forall i | i in after ensures MemWhole(hash, more, i, after[i]) {
      assert MemWhole(hash, sys.past, i, Mem(sys, i));
      assert MemWhole(hash, more, i, Mem(sys, i));
      if (e.Fail? || e.Receive? || e.Store?) && e.p in sys.passes {
        PassWholeGrows(hash, sys.past, sys.passes[e.p], Moment(sys.centre, e));
      }
    }
  }

  lemma WholeStep(hash: Hash, sys: System, e: SysEvent)
    requires AllWhole(hash, sys)
    ensures AllWhole(hash, SysStep(hash, sys, e))
  {
    WholePasses(hash, sys, e);
    WholeSites(hash, sys, e);
    var next := SysStep(hash, sys, e);
    assert next.past == sys.past + [Moment(sys.centre, e)];
    assert next.sites == SiteStep(sys, e) && next.passes == PassesStep(hash, sys, e);
  }

  /** Over every run, however the passes overlap, answers get lost and sites restart: what a
      site holds in memory or on disk is one whole document that the centre once computed for it. */
  lemma {:induction false} HeldIsOneWholePastDocument(hash: Hash, es: seq<SysEvent>)
    ensures AllWhole(hash, SysAfter(hash, es))
  {
    if es != [] {
      HeldIsOneWholePastDocument(hash, es[..|es| - 1]);
      WholeStep(hash, SysAfter(hash, es[..|es| - 1]), es[|es| - 1]);
    }
  }

  // ---- Passes one at a time ----

  /** No pass of the site is under way when this one begins. */
  ghost predicate StartsAlone(sys: System, e: SysEvent) {
    e.Begin? ==> forall p :: p in sys.passes ==> sys.passes[p].site != e.site
  }

  ghost predicate Serialised(hash: Hash, es: seq<SysEvent>) {
    es == [] || (Serialised(hash, es[..|es| - 1]) && StartsAlone(SysAfter(hash, es[..|es| - 1]), es[|es| - 1]))
  }

  /** The version to ask with, if there is one, is that of the document held. */
  ghost predicate Coherent(m: SiteMem) {
    m.etag != "" ==> m.held.Some? && m.held.value.version == m.etag
  }

  ghost predicate PassFits(m: SiteMem, q: Pass) {
    match q
    case Asked(_, etag) => Coherent(m) && etag == m.etag
    case Computed(_, etag, _) => Coherent(m) && etag == m.etag
    case Unchanged(_, built) => Coherent(m) && m.etag == built.version && m.etag != ""
    case Full(_, _) => Coherent(m)
    case Got(_, built, doc, _) => doc.Some? && doc.value.version == built.version && m.etag == built.version
  }

  ghost predicate OnePassEach(passes: map<nat, Pass>) {
    forall p, q :: p in passes && q in passes && p != q ==> passes[p].site != passes[q].site
  }

  ghost predicate InStep(sys: System) {
    && OnePassEach(sys.passes)
    && (forall p :: p in sys.passes ==> PassFits(Mem(sys, sys.passes[p].site), sys.passes[p]))
    && (forall i: SiteId :: (forall p :: p in sys.passes ==> sys.passes[p].site != i) ==> Coherent(Mem(sys, i)))
  }

  /** The memory a site has after the event, given the map of all of them. */
  lemma MemAfter(hash: Hash, sys: System, e: SysEvent, i: SiteId)
    ensures Mem(SysStep(hash, sys, e), i) ==
            (if i in SiteStep(sys, e) then SiteStep(sys, e)[i] else SiteMem(None, "", None))
    ensures !e.Restart? && !(e.Fail? || e.Receive? || e.Store?) ==> Mem(SysStep(hash, sys, e), i) == Mem(sys, i)
  {
  }

  /** An event about one pass leaves the other sites' memory alone. */
  lemma OtherSitesKept(hash: Hash, sys: System, e: SysEvent, i: SiteId)
    requires e.Fail? || e.Receive? || e.Store?
    requires e.p in sys.passes ==> sys.passes[e.p].site != i
    ensures Mem(SysStep(hash, sys, e), i) == Mem(sys, i)
  {
  }

  lemma OnePassKept(hash: Hash, sys: System, e: SysEvent)
    requires OnePassEach(sys.passes) && StartsAlone(sys, e)
    ensures OnePassEach(PassesStep(hash, sys, e))
  {
    if !e.Central? && !e.Begin? && !e.Restart? && !e.Fail? && !e.Store? && e.p in sys.passes {
      assert PassStep(hash, sys, sys.passes[e.p], e).site == sys.passes[e.p].site;
    }
  }

  /** The pass the event is about still fits its site's memory afterwards. */
  lemma OwnPassFits(hash: Hash, sys: System, e: SysEvent)
    requires InStep(sys)
    requires e.Compute? || e.Reply? || e.Receive?
    requires e.p in sys.passes
    ensures PassFits(Mem(SysStep(hash, sys, e), sys.passes[e.p].site), PassStep(hash, sys, sys.passes[e.p], e))
  {
    MemAfter(hash, sys, e, sys.passes[e.p].site);
  }

  lemma PassFitsAfter(hash: Hash, sys: System, e: SysEvent, p: nat)
    requires InStep(sys) && StartsAlone(sys, e)
    requires p in PassesStep(hash, sys, e)
    ensures var q := PassesStep(hash, sys, e)[p]; PassFits(Mem(SysStep(hash, sys, e), q.site), q)
  {
    var q := PassesStep(hash, sys, e)[p];
    if e.Central? || e.Begin? {
      MemAfter(hash, sys, e, q.site);
    } else if e.Restart? {
      MemAfter(hash, sys, e, q.site);
    } else if p == e.p {
      if e.Fail? || e.Store? {
        MemAfter(hash, sys, e, q.site);
      } else {
        OwnPassFits(hash, sys, e);
      }
    } else {
      assert p in sys.passes && q == sys.passes[p];
      if e.Compute? || e.Reply? {
        MemAfter(hash, sys, e, q.site);
      } else {
        OtherSitesKept(hash, sys, e, q.site);
      }
    }
  }

  /** The event brings the pass to an end. */
  predicate Ends(sys: System, e: SysEvent, p: nat)
    requires p in sys.passes
  {
    || (e.Restart? && e.site == sys.passes[p].site)
    || (e.Fail? && e.p == p && !sys.passes[p].Got?)
    || (e.Store? && e.p == p && sys.passes[p].Got?)
  }

  lemma StillUnderWay(hash: Hash, sys: System, e: SysEvent, p: nat)
    requires p in sys.passes && !Ends(sys, e, p)
    ensures p in PassesStep(hash, sys, e) && PassesStep(hash, sys, e)[p].site == sys.passes[p].site
  {
  }

  /** A site none of whose passes is under way afterwards. */
  lemma RestingSiteCoherent(hash: Hash, sys: System, e: SysEvent, i: SiteId)
    requires InStep(sys)
    requires forall p :: p in PassesStep(hash, sys, e) ==> PassesStep(hash, sys, e)[p].site != i
    ensures Coherent(Mem(SysStep(hash, sys, e), i))
  {
    MemAfter(hash, sys, e, i);
    if e.Restart? && e.site == i {
    } else if !e.Central? && !e.Begin? && !e.Restart? && e.p in sys.passes && sys.passes[e.p].site == i {
      assert PassFits(Mem(sys, i), sys.passes[e.p]);
      if !(e.Fail? && !sys.passes[e.p].Got?) && !(e.Store? && sys.passes[e.p].Got?) {
        assert PassesStep(hash, sys, e)[e.p].site == i;
      }
    } else {
      forall p | p in sys.passes && !Ends(sys, e, p) ensures sys.passes[p].site != i {
        StillUnderWay(hash, sys, e, p);
      }
      assert Coherent(Mem(sys, i));
      if e.Fail? || e.Receive? || e.Store? {
        OtherSitesKept(hash, sys, e, i);
      }
    }
  }

  lemma InStepStep(hash: Hash, sys: System, e: SysEvent)
    requires InStep(sys) && StartsAlone(sys, e)
    ensures InStep(SysStep(hash, sys, e))
  {
    var next := SysStep(hash, sys, e);
    assert next.passes == PassesStep(hash, sys, e);
    OnePassKept(hash, sys, e);
    forall p | p in next.passes ensures PassFits(Mem(next, next.passes[p].site), next.passes[p]) {
      PassFitsAfter(hash, sys, e, p);
    }
    forall i: SiteId | forall p :: p in next.passes ==> next.passes[p].site != i ensures Coherent(Mem(next, i)) {
      RestingSiteCoherent(hash, sys, e, i);
    }
  }

  /** While a site's passes do not overlap, between passes the version it will ask with is the
      version of the document it holds. */
  lemma {:induction false} SerialisedPassesStayInStep(hash: Hash, es: seq<SysEvent>)
    requires Serialised(hash, es)
    ensures InStep(SysAfter(hash, es))
  {
    if es != [] {
      SerialisedPassesStayInStep(hash, es[..|es| - 1]);
      InStepStep(hash, SysAfter(hash, es[..|es| - 1]), es[|es| - 1]);
    }
  }

  /** The truncated checksum tells these two contents apart if they differ. */
  ghost predicate Distinguishes(hash: Hash, a: Content, b: Content) {
    hash(a) == hash(b) ==> a == b
  }

  /** Every pass that got an answer, "not modified" included, ends with the site holding a
      document, and it is the content the centre computed during that very pass, unless two different contents
      have the same version. */
  lemma CompletedPassIsCurrent(hash: Hash, es: seq<SysEvent>, p: nat, saved: bool)
    requires Serialised(hash, es)
    requires p in SysAfter(hash, es).passes && SysAfter(hash, es).passes[p].Got?
    ensures var sys := SysAfter(hash, es);
            var site, built := sys.passes[p].site, sys.passes[p].built;
            var m := Mem(SysStep(hash, sys, Store(p, saved)), site);
            && m.held.Some? && m.held.value.version == built.version == m.etag
            && WholePast(hash, sys.past, site, built)
            && (Distinguishes(hash, m.held.value.content, built.content) ==>
                  m.held.value.content == ContentOf(sys.past[built.at].before, site))
  {
    SerialisedPassesStayInStep(hash, es);
    HeldIsOneWholePastDocument(hash, es);
    var sys := SysAfter(hash, es);
    var q := sys.passes[p];
    assert PassFits(Mem(sys, q.site), q);
    assert PassWhole(hash, sys.past, q);
    StoringGot(hash, sys, p, saved);
    VersionDeterminesHash(hash, q.doc.value.content, q.built.content);
  }

  lemma StoringGot(hash: Hash, sys: System, p: nat, saved: bool)
    requires p in sys.passes && sys.passes[p].Got?
    ensures var m := Mem(SysStep(hash, sys, Store(p, saved)), sys.passes[p].site);
            m.held == sys.passes[p].doc && m.etag == Mem(sys, sys.passes[p].site).etag
  {
  }

  lemma VersionDeterminesHash(hash: Hash, a: Content, b: Content)
    requires Version(hash, a) == Version(hash, b)
    ensures hash(a) == hash(b)
  {
    assert Version(hash, a)[7..] == hash(a);
    assert Version(hash, b)[7..] == hash(b);
  }

  // ---- Passes that overlap ----

  /** The event hands a whole document to a pass of the site. */
  predicate BringsFull(sys: System, e: SysEvent, site: SiteId) {
    e.Receive? && e.p in sys.passes && sys.passes[e.p].Full? && sys.passes[e.p].site == site
  }

  /** The last whole document any pass of the site received since the site was last started. */
  function LastFull(hash: Hash, es: seq<SysEvent>, site: SiteId): Option<Doc> {
    if es == [] then None
    else
      var sys, e := SysAfter(hash, es[..|es| - 1]), es[|es| - 1];
      if BringsFull(sys, e, site) then Some(sys.passes[e.p].built)
      else if e == SysEvent.Restart(site) then None
      else LastFull(hash, es[..|es| - 1], site)
  }

  lemma EtagStep(hash: Hash, sys: System, e: SysEvent, site: SiteId)
    ensures Mem(SysStep(hash, sys, e), site).etag ==
            if BringsFull(sys, e, site) then sys.passes[e.p].built.version
            else if e == SysEvent.Restart(site) then "" else Mem(sys, site).etag
  {
    MemAfter(hash, sys, e, site);
    if (e.Fail? || e.Receive? || e.Store?) && e.p in sys.passes && sys.passes[e.p].site != site {
      OtherSitesKept(hash, sys, e, site);
    }
  }

  lemma {:induction false} EtagIsLastFull(hash: Hash, es: seq<SysEvent>, site: SiteId)
    ensures var last := LastFull(hash, es, site);
            Mem(SysAfter(hash, es), site).etag == if last.Some? then last.value.version else ""
  {
    if es != [] {
      EtagIsLastFull(hash, es[..|es| - 1], site);
      EtagStep(hash, SysAfter(hash, es[..|es| - 1]), es[|es| - 1], site);
    }
  }

  /** Every document under way has its content's version, and so not the empty one. */
  lemma {:induction false} LastFullIsVersioned(hash: Hash, es: seq<SysEvent>, site: SiteId)
    ensures var last := LastFull(hash, es, site); last.Some? ==> last.value.version != ""
  {
    if es != [] {
      var sys, e := SysAfter(hash, es[..|es| - 1]), es[|es| - 1];
      LastFullIsVersioned(hash, es[..|es| - 1], site);
      HeldIsOneWholePastDocument(hash, es[..|es| - 1]);
      if BringsFull(sys, e, site) { assert PassWhole(hash, sys.past, sys.passes[e.p]); }
    }
  }

  /** Over every run, passes overlapping or not: storing what a pass got leaves document and version in step exactly
      when the site has received no whole document since it started, or the one it received last, by whichever pass,
      has the version of the one stored. */
  lemma StoredCoherentIff(hash: Hash, es: seq<SysEvent>, p: nat, saved: bool)
    requires p in SysAfter(hash, es).passes && SysAfter(hash, es).passes[p].Got?
    ensures var sys := SysAfter(hash, es);
            var q := sys.passes[p];
            var last := LastFull(hash, es, q.site);
            Coherent(Mem(SysStep(hash, sys, Store(p, saved)), q.site)) <==>
            (last.Some? ==> q.doc.Some? && q.doc.value.version == last.value.version)
  {
    var sys := SysAfter(hash, es);
    EtagIsLastFull(hash, es, sys.passes[p].site);
    LastFullIsVersioned(hash, es, sys.passes[p].site);
    StoringGot(hash, sys, p, saved);
  }

  /** For a pass that got a whole document: it leaves the site in step exactly when the last whole document the site
      received, by whichever pass, has the version of its own. */
  lemma StoredFullCoherentIff(hash: Hash, es: seq<SysEvent>, p: nat, saved: bool)
    requires p in SysAfter(hash, es).passes && SysAfter(hash, es).passes[p].Got? && SysAfter(hash, es).passes[p].changed
    ensures var sys := SysAfter(hash, es);
            var q := sys.passes[p];
            var last := LastFull(hash, es, q.site);
            && last.Some?
            && (Coherent(Mem(SysStep(hash, sys, Store(p, saved)), q.site)) <==> last.value.version == q.built.version)
  {
    GotFullWasLast(hash, es, p);
    StoredCoherentIff(hash, es, p, saved);
  }

  /** A pass that got a whole document has one to be compared with. */
  lemma {:induction false} GotFullWasLast(hash: Hash, es: seq<SysEvent>, p: nat)
    requires p in SysAfter(hash, es).passes && SysAfter(hash, es).passes[p].Got? && SysAfter(hash, es).passes[p].changed
    ensures LastFull(hash, es, SysAfter(hash, es).passes[p].site).Some?
    ensures SysAfter(hash, es).passes[p].doc == Some(SysAfter(hash, es).passes[p].built)
  {
    if es != [] {
      var sys, e := SysAfter(hash, es[..|es| - 1]), es[|es| - 1];
      var q := SysAfter(hash, es).passes[p];
      GotBefore(hash, sys, e, p);
      if !(e.Receive? && e.p == p && sys.passes[p].Full?) {
        GotFullWasLast(hash, es[..|es| - 1], p);
      }
    }
  }

  lemma GotBefore(hash: Hash, sys: System, e: SysEvent, p: nat)
    requires p in PassesStep(hash, sys, e) && PassesStep(hash, sys, e)[p].Got? && PassesStep(hash, sys, e)[p].changed
    ensures p in sys.passes
    ensures var q := PassesStep(hash, sys, e)[p];
            && q.site == sys.passes[p].site && e != SysEvent.Restart(q.site)
            && (if e.Receive? && e.p == p && sys.passes[p].Full? then q.doc == Some(q.built) else q == sys.passes[p])
  {
  }

  // ---- What a site has in hand ----

  /** The event puts the document a pass of the site got into its memory. */
  predicate PutsInHand(sys: System, e: SysEvent, site: SiteId) {
    e.Store? && e.p in sys.passes && sys.passes[e.p].Got? && sys.passes[e.p].site == site
  }

  /** The document the last pass of the site to end well stored, since the site was last started. */
  function LastStored(hash: Hash, es: seq<SysEvent>, site: SiteId): Option<Doc> {
    if es == [] then None
    else
      var sys, e := SysAfter(hash, es[..|es| - 1]), es[|es| - 1];
      if PutsInHand(sys, e, site) then sys.passes[e.p].doc
      else if e == SysEvent.Restart(site) then None
      else LastStored(hash, es[..|es| - 1], site)
  }

  lemma HeldStep(hash: Hash, sys: System, e: SysEvent, site: SiteId)
    requires !PutsInHand(sys, e, site) && e != SysEvent.Restart(site)
    ensures var m, n := Mem(sys, site), Mem(SysStep(hash, sys, e), site);
            n.disk == m.disk && (n.held == m.held || (m.held.None? && n.held == m.disk))
  {
    MemAfter(hash, sys, e, site);
    if (e.Fail? || e.Receive? || e.Store?) && e.p in sys.passes && sys.passes[e.p].site != site {
      OtherSitesKept(hash, sys, e, site);
    }
  }

  /** Over every run: once a pass has stored a document since the site was started, the site holds what was stored
      last; before that it holds nothing, or what is on its disk. So a document that was given and lost on the way is
      held only if it came by another one of these ways. */
  lemma {:induction false} HeldIsLastStored(hash: Hash, es: seq<SysEvent>, site: SiteId)
    ensures var last, m := LastStored(hash, es, site), Mem(SysAfter(hash, es), site);
            if last.Some? then m.held == last else m.held.None? || m.held == m.disk
  {
    if es != [] {
      var sys, e := SysAfter(hash, es[..|es| - 1]), es[|es| - 1];
      HeldIsLastStored(hash, es[..|es| - 1], site);
      if PutsInHand(sys, e, site) {
        StoringGot(hash, sys, e.p, e.saved);
      } else if e == SysEvent.Restart(site) {
        MemAfter(hash, sys, e, site);
      } else {
        HeldStep(hash, sys, e, site);
      }
    }
  }
}
