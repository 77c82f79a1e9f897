/** The centre, the sites that cache its document, and the passes that carry one to the other
    (server/api.go siteDesired and hSiteDesired, site/site.go pass and fetch, site/relay.go provision).

    Any number of passes may be under way, each step of a pass is an event of its own, answers may
    be lost and sites may restart at any moment. `past` records, for every event so far, the event and the
    centre's rows just before it: a history variable, read by the theorems and by nothing else. */
module Rollout {
  import opened Wrappers
  import opened Centre

  // ---- The document ----

  datatype DocBlade = DocBlade(netboot: bool, image: string, install: InstallState, details: string)

  /** The hashed part of a document. */
  datatype Content = Content(settings: string, blades: map<Serial, DocBlade>, images: map<string, string>)

  /** A document with its version; `at` is the number of the event that computed it. */
  datatype Doc = Doc(content: Content, version: string, at: nat)

  type Hash = Content -> string

  function DocBladeOf(b: Blade, clock: nat): DocBlade {
    DocBlade(b.install == Pending || b.install == Wipe || ProbeArmed(b, clock),
             b.image, b.install, b.details)
  }

  predicate Listed(c: Records, site: SiteId, s: Serial) {
    s in c.blades && c.blades[s].at == Some(site)
  }

  /** siteDesired: the blades that stand at the site and the catalogue entries they are assigned. */
  function ContentOf(c: Records, site: SiteId): Content
    requires site in c.sites
  {
    Content(c.sites[site].settings,
            map s | s in c.blades && Listed(c, site, s) :: DocBladeOf(c.blades[s], c.clock),
            map i | i in c.catalogue && i != "" &&
                    exists s :: s in c.blades && Listed(c, site, s) && c.blades[s].image == i
                  :: c.catalogue[i])
  }

  function Version(hash: Hash, content: Content): (v: string)
    ensures v != ""
  {
    "sha256:" + hash(content)
  }

  // ---- Sites and passes ----

  /** What a site keeps: the document in memory, the version it will ask with, the file on disk. */
  datatype SiteMem = SiteMem(held: Option<Doc>, etag: string, disk: Option<Doc>)

  datatype Pass =
    | Asked(site: SiteId, etag: string)
    | Computed(site: SiteId, etag: string, built: Doc)
    | Unchanged(site: SiteId, built: Doc)
    | Full(site: SiteId, built: Doc)
    | Got(site: SiteId, built: Doc, doc: Option<Doc>, changed: bool)

  datatype SysEvent =
    | Central(e: Event)
    | Begin(p: nat, site: SiteId)
    | Compute(p: nat)
    | Reply(p: nat)
    | Fail(p: nat)
    | Receive(p: nat)
    | Store(p: nat, saved: bool)
    | Restart(site: SiteId)

  datatype Moment = Moment(before: Records, event: SysEvent)

  /** The last full document a site was given, and the number of the event that gave it. */
  datatype Given = Given(doc: Doc, at: nat)

  datatype System = System(
    centre: Records,
    sites: map<SiteId, SiteMem>,
    passes: map<nat, Pass>,
    past: seq<Moment>,
    given: map<SiteId, Given>,
    armed: map<Serial, nat>)

  const START := System(EMPTY, map[], map[], [], map[], map[])

  function Mem(sys: System, site: SiteId): SiteMem {
    if site in sys.sites then sys.sites[site] else SiteMem(None, "", None)
  }

  predicate AnswersInFull(q: Pass) {
    q.Computed? && (q.etag == "" || q.etag != q.built.version)
  }

  /** What the event does at the centre, as centre events: at most one. */
  function AtCentre(sys: System, e: SysEvent): (r: Option<Event>)
    ensures r.Some? && r.value.HandOut? ==> e.Reply? && e.p in sys.passes && AnswersInFull(sys.passes[e.p])
  {
    if e.Central? then (if e.e.HandOut? then None else Some(e.e))
    else if e.Reply? && e.p in sys.passes && AnswersInFull(sys.passes[e.p])
    then Some(HandOut(sys.passes[e.p].site))
    else None
  }

  /** A pass takes its next step. Events that do not fit the pass's phase change nothing. */
  function PassStep(hash: Hash, sys: System, q: Pass, e: SysEvent): Pass {
    match (q, e)
    case (Asked(site, etag), Compute(_)) =>
      if site in sys.centre.sites then
        var content := ContentOf(sys.centre, site);
        Computed(site, etag, Doc(content, Version(hash, content), |sys.past|))
      else q
    case (Computed(site, etag, built), Reply(_)) =>
      if AnswersInFull(q) then Full(site, built) else Unchanged(site, built)
    case (Unchanged(site, built), Receive(_)) => Got(site, built, Mem(sys, site).held, false)
    case (Full(site, built), Receive(_)) => Got(site, built, Some(built), true)
    case _ => q
  }

  /** fetch failed: the site falls back to the file on disk if it holds nothing. */
  function FallBack(m: SiteMem): SiteMem {
    if m.held.None? then m.(held := m.disk) else m
  }

  /** A whole document arrived: its version becomes the one to ask with. */
  function Tagged(m: SiteMem, version: string): SiteMem {
    m.(etag := version)
  }

  /** The pass replaces the document in memory, and on disk if it is new and the write succeeds. */
  function Stored(m: SiteMem, doc: Option<Doc>, changed: bool, saved: bool): SiteMem {
    m.(held := doc, disk := if changed && saved then doc else m.disk)
  }

  function SiteStep(sys: System, e: SysEvent): map<SiteId, SiteMem> {
    match e
    case Restart(site) => sys.sites[site := SiteMem(None, "", Mem(sys, site).disk)]
    case Fail(p) =>
      if p in sys.passes && !sys.passes[p].Got? then
        var site := sys.passes[p].site; sys.sites[site := FallBack(Mem(sys, site))]
      else sys.sites
    case Receive(p) =>
      if p in sys.passes && sys.passes[p].Full? then
        var q := sys.passes[p]; sys.sites[q.site := Tagged(Mem(sys, q.site), q.built.version)]
      else sys.sites
    case Store(p, saved) =>
      if p in sys.passes && sys.passes[p].Got? then
        var q := sys.passes[p]; sys.sites[q.site := Stored(Mem(sys, q.site), q.doc, q.changed, saved)]
      else sys.sites
    case _ => sys.sites
  }

  function PassesStep(hash: Hash, sys: System, e: SysEvent): map<nat, Pass> {
    match e
    case Central(_) => sys.passes
    case Begin(p, site) =>
      if p in sys.passes then sys.passes else sys.passes[p := Asked(site, Mem(sys, site).etag)]
    case Restart(site) => map p | p in sys.passes && sys.passes[p].site != site :: sys.passes[p]
    case Fail(p) => if p in sys.passes && !sys.passes[p].Got? then sys.passes - {p} else sys.passes
    case Store(p, _) => if p in sys.passes && sys.passes[p].Got? then sys.passes - {p} else sys.passes
    case _ => if e.p in sys.passes then sys.passes[e.p := PassStep(hash, sys, sys.passes[e.p], e)] else sys.passes
  }

  function SysStep(hash: Hash, sys: System, e: SysEvent): System {
    var n := |sys.past|;
    var at := AtCentre(sys, e);
    System(
      if at.Some? then Step(sys.centre, at.value) else sys.centre,
      SiteStep(sys, e),
      PassesStep(hash, sys, e),
      sys.past + [Moment(sys.centre, e)],
      if at.Some? && at.value.HandOut?
      then sys.given[at.value.siteId := Given(sys.passes[e.p].built, n)] else sys.given,
      if e.Central? && ArmsProbe(sys.centre, e.e) then sys.armed[e.e.serial := n] else sys.armed)
  }

  function SysAfter(hash: Hash, es: seq<SysEvent>): System {
    if es == [] then START else SysStep(hash, SysAfter(hash, es[..|es| - 1]), es[|es| - 1])
  }

  /** What a document shows of a blade that stands at its site, and of no other: its job, image and details as the row
      has them, and the netboot flag exactly for an install, an erase or a firmware reading not half an hour old. */
  lemma DocumentShows(c: Records, site: SiteId, s: Serial)
    requires site in c.sites
    ensures var content := ContentOf(c, site);
            && content.settings == c.sites[site].settings
            && (s in content.blades <==> s in c.blades && c.blades[s].at == Some(site))
            && (s in content.blades ==>
                  var b, d := c.blades[s], content.blades[s];
                  && d.image == b.image && d.install == b.install && d.details == b.details
                  && (d.netboot <==>
                        || b.install == Pending || b.install == Wipe
                        || (b.probe.Some? && c.clock < 1000 * b.probe.value + 1_800_000)))
  {
  }

  /** And of an image: exactly if it is in the catalogue and a blade of the site is assigned it. */
  lemma DocumentShowsImage(c: Records, site: SiteId, id: string)
    requires site in c.sites
    ensures var content := ContentOf(c, site);
            && (id in content.images <==>
                  id in c.catalogue && id != "" && exists s :: s in content.blades && content.blades[s].image == id)
            && (id in content.images ==> content.images[id] == c.catalogue[id])
  {
    var content := ContentOf(c, site);
    if s :| s in c.blades && Listed(c, site, s) && c.blades[s].image == id { assert content.blades[s].image == id; }
  }
}
