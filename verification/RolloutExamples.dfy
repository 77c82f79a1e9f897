/** Runs in which a hypothesis of the roll-out theorems is dropped and the conclusion fails. */
module RolloutExamples {
  import opened Wrappers
  import opened Centre
  import opened Rollout
  import opened Coherence
  import opened OfflineJobs
  import opened ProbeOrder

  /** The part of a system a pass of one site can see. */
  datatype View = View(centre: Records, mem: SiteMem, passes: map<nat, Pass>, given: Option<Given>)

  function ViewOf(sys: System, site: SiteId): View {
    View(sys.centre, Mem(sys, site), sys.passes, if site in sys.given then Some(sys.given[site]) else None)
  }

  lemma Snoc(hash: Hash, es: seq<SysEvent>, e: SysEvent)
    ensures SysAfter(hash, es + [e]) == SysStep(hash, SysAfter(hash, es), e)
  {
    assert (es + [e])[..|es|] == es;
  }

  /** A run after which the site sees this. */
  ghost predicate Reaches(hash: Hash, es: seq<SysEvent>, site: SiteId, v: View) {
    ViewOf(SysAfter(hash, es), site) == v
  }

  lemma ByCentre(hash: Hash, es: seq<SysEvent>, site: SiteId, v: View, e: Event)
    requires Reaches(hash, es, site, v) && !e.HandOut?
    ensures Reaches(hash, es + [Central(e)], site, v.(centre := Step(v.centre, e)))
  {
    Snoc(hash, es, Central(e));
  }

  lemma ByBegin(hash: Hash, es: seq<SysEvent>, site: SiteId, v: View, p: nat)
    requires Reaches(hash, es, site, v) && p !in v.passes
    ensures Reaches(hash, es + [Begin(p, site)], site, v.(passes := v.passes[p := Asked(site, v.mem.etag)]))
  {
    Snoc(hash, es, Begin(p, site));
  }

  lemma ByCompute(hash: Hash, es: seq<SysEvent>, site: SiteId, v: View, p: nat) returns (d: Doc)
    requires Reaches(hash, es, site, v) && p in v.passes && site in v.centre.sites
    requires v.passes[p].Asked? && v.passes[p].site == site
    ensures d.content == ContentOf(v.centre, site) && d.version == Version(hash, d.content)
    ensures Reaches(hash, es + [Compute(p)], site, v.(passes := v.passes[p := Computed(site, v.passes[p].etag, d)]))
  {
    Snoc(hash, es, Compute(p));
    var content := ContentOf(v.centre, site);
    d := Doc(content, Version(hash, content), |SysAfter(hash, es).past|);
  }

  lemma ByReply(hash: Hash, es: seq<SysEvent>, site: SiteId, v: View, p: nat) returns (w: View)
    requires Reaches(hash, es, site, v) && p in v.passes && site in v.centre.sites
    requires v.passes[p].Computed? && v.passes[p].site == site
    ensures Reaches(hash, es + [Reply(p)], site, w)
    ensures w.mem == v.mem
    ensures if AnswersInFull(v.passes[p]) then
              && w.centre == Step(v.centre, HandOut(site))
              && w.passes == v.passes[p := Full(site, v.passes[p].built)]
              && w.given.Some? && w.given.value.doc == v.passes[p].built
            else w == v.(passes := v.passes[p := Unchanged(site, v.passes[p].built)])
  {
    Snoc(hash, es, Reply(p));
    w := ViewOf(SysAfter(hash, es + [Reply(p)]), site);
  }

  lemma ByReceive(hash: Hash, es: seq<SysEvent>, site: SiteId, v: View, p: nat)
    requires Reaches(hash, es, site, v) && p in v.passes
    requires (v.passes[p].Full? || v.passes[p].Unchanged?) && v.passes[p].site == site
    ensures var d := v.passes[p].built;
            Reaches(hash, es + [Receive(p)], site,
                    if v.passes[p].Full?
                    then v.(passes := v.passes[p := Got(site, d, Some(d), true)], mem := Tagged(v.mem, d.version))
                    else v.(passes := v.passes[p := Got(site, d, v.mem.held, false)]))
  {
    Snoc(hash, es, Receive(p));
  }

  lemma ByStore(hash: Hash, es: seq<SysEvent>, site: SiteId, v: View, p: nat)
    requires Reaches(hash, es, site, v) && p in v.passes
    requires v.passes[p].Got? && v.passes[p].site == site
    ensures Reaches(hash, es + [Store(p, true)], site,
                    v.(passes := v.passes - {p}, mem := Stored(v.mem, v.passes[p].doc, v.passes[p].changed, true)))
  {
    Snoc(hash, es, Store(p, true));
  }

  /** An undisturbed first pass brings the site exactly what the centre has. */
  lemma FirstPass(hash: Hash, es: seq<SysEvent>, site: SiteId, v: View, p: nat) returns (all: seq<SysEvent>, w: View)
    requires Reaches(hash, es, site, v) && p !in v.passes && site in v.centre.sites && v.mem.etag == ""
    ensures Reaches(hash, all, site, w)
    ensures w.centre == Step(v.centre, HandOut(site))
    ensures w.mem.held.Some? && w.mem.held.value.content == ContentOf(v.centre, site)
    ensures w.mem.disk == w.mem.held && w.mem.etag == w.mem.held.value.version
  {
    ByBegin(hash, es, site, v, p);
    all, w := es + [Begin(p, site)], v.(passes := v.passes[p := Asked(site, v.mem.etag)]);
    var d := ByCompute(hash, all, site, w, p);
    all, w := all + [Compute(p)], w.(passes := w.passes[p := Computed(site, v.mem.etag, d)]);
    var x := ByReply(hash, all, site, w, p);
    all, w := all + [Reply(p)], x;
    ByReceive(hash, all, site, w, p);
    all, w := all + [Receive(p)],
        w.(passes := w.passes[p := Got(site, d, Some(d), true)], mem := Tagged(w.mem, d.version));
    ByStore(hash, all, site, w, p);
    all, w := all + [Store(p, true)], w.(passes := w.passes - {p}, mem := Stored(w.mem, Some(d), true, true));
  }

  // ---- A blade with an image, in its slot, nothing requested ----

  const IN_SLOT := Blade(Some(1), "img", Idle, RunState.Enrolled, "", None, false, "d")
  const SILENT := SiteMem(None, "", None)

  function Rows(b: Blade): Records {
    Records(0, map["a" := b], map[], map["img" := "x"], map[1 := SiteRow("net", None)])
  }

  const NO_BLADES := Records(0, map[], map[], map["img" := "x"], map[1 := SiteRow("net", None)])

  lemma SetUpSite(hash: Hash) returns (es: seq<SysEvent>)
    ensures Reaches(hash, es, 1, View(NO_BLADES, SILENT, map[], None))
  {
    es := [];
    var v := View(EMPTY, SILENT, map[], None);
    ByCentre(hash, es, 1, v, EditSite(1, "net"));
    es, v := es + [Central(EditSite(1, "net"))], v.(centre := Net("net"));
    ByCentre(hash, es, 1, v, EditCatalogue("img", Some("x")));
    es := es + [Central(EditCatalogue("img", Some("x")))];
    assert Step(v.centre, EditCatalogue("img", Some("x"))) == NO_BLADES;
  }

  lemma SetUp(hash: Hash) returns (es: seq<SysEvent>)
    ensures Reaches(hash, es, 1, View(Rows(IN_SLOT), SILENT, map[], None))
  {
    es := SetUpSite(hash);
    ByCentre(hash, es, 1, View(NO_BLADES, SILENT, map[], None), Enrol("a", ""));
    assert Step(NO_BLADES, Enrol("a", "")) == Rows(NewBlade(""));
    es := SetUpBlade(hash, es + [Central(Enrol("a", ""))]);
  }

  lemma SetUpBlade(hash: Hash, before: seq<SysEvent>) returns (es: seq<SysEvent>)
    requires Reaches(hash, before, 1, View(Rows(NewBlade("")), SILENT, map[], None))
    ensures Reaches(hash, es, 1, View(Rows(IN_SLOT), SILENT, map[], None))
  {
    var named := NewBlade("").(image := "img");
    RowsChange(NewBlade(""), named, AssignImage("a", "img"));
    ByCentre(hash, before, 1, View(Rows(NewBlade("")), SILENT, map[], None), AssignImage("a", "img"));
    es := before + [Central(AssignImage("a", "img"))];
    RowsChange(named, IN_SLOT, Place("a", Some(1), "d"));
    ByCentre(hash, es, 1, View(Rows(named), SILENT, map[], None), Place("a", Some(1), "d"));
    es := es + [Central(Place("a", Some(1), "d"))];
  }

  /** An event of the blade's row leaves the other tables alone. */
  lemma RowsChange(b: Blade, c: Blade, e: Event)
    requires RowEvent(e) && e.serial == "a" && RowStep(Rows(b), b, e) == c
    ensures Step(Rows(b), e) == Rows(c)
  {
  }

  /** One more event at the centre, then a first pass: the site holds the blade's row as changed. */
  lemma ChangedAndFetched(hash: Hash, e: Event, b: Blade) returns (es: seq<SysEvent>, w: View)
    requires !e.HandOut? && Step(Rows(IN_SLOT), e) == Rows(b)
    ensures Reaches(hash, es, 1, w)
    ensures w.centre == Step(Rows(b), HandOut(1))
    ensures w.mem.held.Some? && w.mem.held.value.content == ContentOf(Rows(b), 1)
  {
    es := SetUp(hash);
    var v := View(Rows(IN_SLOT), SILENT, map[], None);
    ByCentre(hash, es, 1, v, e);
    es, w := FirstPass(hash, es + [Central(e)], 1, v.(centre := Rows(b)), 0);
  }

  /** A blade armed for a firmware reading only: nobody ever asked for an install, the centre
      says so, and the relay of a site whose line has just gone down tells the installer to write. */
  lemma FirmwareReadingInstallsOffline(hash: Hash) returns (es: seq<SysEvent>)
    ensures var sys := SysAfter(hash, es);
            && RelayAnswer(Mem(sys, 1), "a", true) == Go("img")
            && "a" in sys.centre.blades && Decide(sys.centre, sys.centre.blades["a"]) == NoRequest
  {
    var w;
    ProbeRequested();
    es, w := ChangedAndFetched(hash, RequestProbe("a"), PROBED);
    RelayAnswerFromRows(Rows(PROBED), 1, w.mem, "a", true);
    HandOutKeepsRow(PROBED);
  }

  lemma HandOutKeepsRow(b: Blade)
    ensures var c := Step(Rows(b), HandOut(1));
            "a" in c.blades && c.blades["a"] == b && c.catalogue == Rows(b).catalogue
  {
  }

  lemma ProbeRequested()
    ensures Step(Rows(IN_SLOT), RequestProbe("a")) == Rows(PROBED)
  {
    RowsChange(IN_SLOT, PROBED, RequestProbe("a"));
  }

  const PENDING := IN_SLOT.(install := Pending)

  lemma InstallRequested()
    ensures Step(Rows(IN_SLOT), RequestInstall("a", true)) == Rows(PENDING)
  {
    RowsChange(IN_SLOT, PENDING, RequestInstall("a", true));
  }

  lemma InstallFinished(c: Records)
    requires c == Step(Rows(PENDING), HandOut(1))
    ensures "a" in Step(c, Report("a", PhaseDone)).blades && Step(c, Report("a", PhaseDone)).blades["a"].install == Done
  {
    assert c.blades == Rows(PENDING).blades;
  }

  /** The installer has reported "done" and the centre knows, but the site has not fetched since:
      a blade that netboots again while the line is down is told to install again. */
  lemma FinishedBladeToldToInstallAgain(hash: Hash) returns (es: seq<SysEvent>)
    ensures var sys := SysAfter(hash, es);
            && RelayAnswer(Mem(sys, 1), "a", true) == Go("img")
            && "a" in sys.centre.blades && sys.centre.blades["a"].install == Done
  {
    var w;
    InstallRequested();
    es, w := ChangedAndFetched(hash, RequestInstall("a", true), PENDING);
    RelayAnswerFromRows(Rows(PENDING), 1, w.mem, "a", true);
    InstallFinished(w.centre);
    ByCentre(hash, es, 1, w, Report("a", PhaseDone));
    es := es + [Central(Report("a", PhaseDone))];
  }

  const PROBED := IN_SLOT.(probe := Some(0))

  /** The document is computed, and only then the arming made and a second goes by. */
  lemma ArmedAfterComputing(hash: Hash) returns (es: seq<SysEvent>, d: Doc)
    ensures d.content == ContentOf(Rows(IN_SLOT), 1)
    ensures Reaches(hash, es, 1, View(Rows(PROBED).(clock := 1000), SILENT, map[0 := Computed(1, "", d)], None))
  {
    es := SetUp(hash);
    var v := View(Rows(IN_SLOT), SILENT, map[], None);
    ByBegin(hash, es, 1, v, 0);
    es, v := es + [Begin(0, 1)], v.(passes := map[0 := Asked(1, "")]);
    d := ByCompute(hash, es, 1, v, 0);
    es, v := es + [Compute(0)], v.(passes := map[0 := Computed(1, "", d)]);
    ByCentre(hash, es, 1, v, RequestProbe("a"));
    ProbeRequested();
    es, v := es + [Central(RequestProbe("a"))], v.(centre := Rows(PROBED));
    ByCentre(hash, es, 1, v, Tick(1000));
    es := es + [Central(Tick(1000))];
  }

  /** The arming falls between computing the document and stamping its delivery: the stamp is later
      than the arming, probeStep restarts the blade, and the site's document has no tag for it. */
  lemma ArmingDuringHandOutMissesTheTag(hash: Hash) returns (es: seq<SysEvent>)
    ensures var sys := SysAfter(hash, es);
            && Restarts(sys, "a")
            && 1 in sys.given && "a" in sys.given[1].doc.content.blades
            && !sys.given[1].doc.content.blades["a"].netboot
  {
    var d;
    es, d := ArmedAfterComputing(hash);
    var v := View(Rows(PROBED).(clock := 1000), SILENT, map[0 := Computed(1, "", d)], None);
    var w := ByReply(hash, es, 1, v, 0);
    es := es + [Reply(0)];
    assert w.centre.sites[1].desiredAt == Some(1);
    assert ProbeDecision(w.centre, PROBED) == Centre.Restart(true);
    assert d.content.blades["a"] == DocBladeOf(IN_SLOT, 0);
  }

  /** The document with the tag is given, and the answer lost on the way: the blade is restarted, and its site holds
      nothing at all. */
  lemma LostAnswerRestartsAnyway(hash: Hash) returns (es: seq<SysEvent>)
    ensures var sys := SysAfter(hash, es);
            Restarts(sys, "a") && Mem(sys, 1).held == None && LastStored(hash, es, 1) == None
  {
    es := SetUp(hash);
    var v := View(Rows(IN_SLOT), SILENT, map[], None);
    ProbeRequested();
    ByCentre(hash, es, 1, v, RequestProbe("a"));
    es, v := es + [Central(RequestProbe("a"))], v.(centre := Rows(PROBED));
    ByCentre(hash, es, 1, v, Tick(1000));
    es, v := es + [Central(Tick(1000))], v.(centre := Rows(PROBED).(clock := 1000));
    var w;
    es, w := GivenAndLost(hash, es, v);
    assert w.centre.sites[1].desiredAt == Some(1);
    assert ProbeDecision(w.centre, PROBED) == Centre.Restart(true);
    if LastStored(hash, es, 1).Some? { HeldIsLastStored(hash, es, 1); }
  }

  lemma GivenAndLost(hash: Hash, before: seq<SysEvent>, u: View) returns (es: seq<SysEvent>, w: View)
    requires Reaches(hash, before, 1, u) && u.passes == map[] && u.mem == SILENT && 1 in u.centre.sites
    ensures Reaches(hash, es, 1, w) && w.mem == SILENT && w.centre == Step(u.centre, HandOut(1))
  {
    ByBegin(hash, before, 1, u, 0);
    var v := u.(passes := map[0 := Asked(1, "")]);
    es := before + [Begin(0, 1)];
    var d := ByCompute(hash, es, 1, v, 0);
    es, v := es + [Compute(0)], v.(passes := map[0 := Computed(1, "", d)]);
    w := ByReply(hash, es, 1, v, 0);
    es := es + [Reply(0)];
    ByLoss(hash, es, 1, w, 0);
    es, w := es + [Fail(0)], w.(passes := w.passes - {0}, mem := FallBack(w.mem));
  }

  lemma ByLoss(hash: Hash, es: seq<SysEvent>, site: SiteId, v: View, p: nat)
    requires Reaches(hash, es, site, v) && p in v.passes && !v.passes[p].Got? && v.passes[p].site == site
    ensures Reaches(hash, es + [Fail(p)], site, v.(passes := v.passes - {p}, mem := FallBack(v.mem)))
  {
    Snoc(hash, es, Fail(p));
  }

  // ---- Two passes at once ----

  function Net(settings: string): Records {
    Records(0, map[], map[], map[], map[1 := SiteRow(settings, None)])
  }

  /** Two overlapping passes, the one that fetched first storing last: the site keeps the older
      document under the newer version, and the next pass, answered "not modified", leaves it so. */
  lemma OverlappingPassesPinAnOldDocument(hash: Hash) returns (es: seq<SysEvent>)
    requires hash(Content("old", map[], map[])) != hash(Content("new", map[], map[]))
    ensures var m := Mem(SysAfter(hash, es), 1);
            && m.held.Some? && m.held.value.content.settings == "old"
            && m.etag == Version(hash, Content("new", map[], map[]))
            && 1 in SysAfter(hash, es).centre.sites && SysAfter(hash, es).centre.sites[1].settings == "new"
            && SysAfter(hash, es).passes == map[]
  {
    var v, d, w;
    es, v, d := Overtaken(hash);
    ByBegin(hash, es, 1, v, 2);
    es, v := es + [Begin(2, 1)], v.(passes := map[2 := Asked(1, v.mem.etag)]);
    var d2 := ByCompute(hash, es, 1, v, 2);
    es, v := es + [Compute(2)], v.(passes := map[2 := Computed(1, v.mem.etag, d2)]);
    OnlySiteContent(v.centre, "new");
    w := ByReply(hash, es, 1, v, 2);
    es, v := es + [Reply(2)], w;
    assert v.passes == map[2 := Unchanged(1, d2)];
    ByReceive(hash, es, 1, v, 2);
    es, v := es + [Receive(2)], v.(passes := map[2 := Got(1, d2, v.mem.held, false)]);
    ByStore(hash, es, 1, v, 2);
    es, v := es + [Store(2, true)], v.(passes := map[], mem := Stored(v.mem, v.mem.held, false, true));
  }

  /** Both passes done: memory behind its own version. */
  lemma Overtaken(hash: Hash) returns (es: seq<SysEvent>, v: View, d: Doc)
    requires hash(Content("old", map[], map[])) != hash(Content("new", map[], map[]))
    ensures Reaches(hash, es, 1, v)
    ensures v.passes == map[] && v.mem.held == Some(d) && d.content.settings == "old"
    ensures v.mem.etag == Version(hash, Content("new", map[], map[]))
    ensures OnlySite(v.centre, "new")
  {
    var d1;
    es, v, d, d1 := NewOnItsWay(hash);
    var first := Got(1, d, Some(d), true);
    ByReceive(hash, es, 1, v, 1);
    es, v := es + [Receive(1)],
        v.(passes := map[0 := first, 1 := Got(1, d1, Some(d1), true)], mem := Tagged(v.mem, d1.version));
    ByStore(hash, es, 1, v, 1);
    es, v := es + [Store(1, true)], v.(passes := map[0 := first], mem := Stored(v.mem, Some(d1), true, true));
    ByStore(hash, es, 1, v, 0);
    es, v := es + [Store(0, true)], v.(passes := map[], mem := Stored(v.mem, Some(d), true, true));
  }

  predicate OnlySite(c: Records, settings: string) {
    c.sites.Keys == {1} && c.sites[1].settings == settings && c.blades == map[] && c.catalogue == map[]
  }

  /** The second pass, begun before the first has stored, is answered with the newer document. */
  lemma NewOnItsWay(hash: Hash) returns (es: seq<SysEvent>, v: View, d: Doc, d1: Doc)
    requires hash(Content("old", map[], map[])) != hash(Content("new", map[], map[]))
    ensures Reaches(hash, es, 1, v)
    ensures v.passes == map[0 := Got(1, d, Some(d), true), 1 := Full(1, d1)]
    ensures d.content == Content("old", map[], map[])
    ensures d1.content == Content("new", map[], map[]) && d1.version == Version(hash, d1.content)
    ensures OnlySite(v.centre, "new")
  {
    es, v, d := OldFetched(hash);
    var first := Got(1, d, Some(d), true);
    ByCentre(hash, es, 1, v, EditSite(1, "new"));
    es, v := es + [Central(EditSite(1, "new"))], v.(centre := Step(v.centre, EditSite(1, "new")));
    es, v, d1 := SecondComputed(hash, es, v, first, d);
    es, v := NewAnsweredInFull(hash, es, v, first, d, d1);
  }

  lemma SecondComputed(hash: Hash, before: seq<SysEvent>, u: View, first: Pass, d: Doc)
    returns (es: seq<SysEvent>, v: View, d1: Doc)
    requires Reaches(hash, before, 1, u) && u.passes == map[0 := first] && u.mem.etag == d.version &&
             OnlySite(u.centre, "new")
    ensures Reaches(hash, es, 1, v) && v.passes == map[0 := first, 1 := Computed(1, d.version, d1)] &&
            v.centre == u.centre
    ensures d1.content == Content("new", map[], map[]) && d1.version == Version(hash, d1.content)
  {
    ByBegin(hash, before, 1, u, 1);
    es, v := before + [Begin(1, 1)], u.(passes := map[0 := first, 1 := Asked(1, d.version)]);
    d1 := ByCompute(hash, es, 1, v, 1);
    OnlySiteContent(v.centre, "new");
    es, v := es + [Compute(1)], v.(passes := map[0 := first, 1 := Computed(1, d.version, d1)]);
  }

  lemma OnlySiteContent(c: Records, settings: string)
    requires OnlySite(c, settings)
    ensures ContentOf(c, 1) == Content(settings, map[], map[])
  {
  }

  lemma NewAnsweredInFull(hash: Hash, before: seq<SysEvent>, v: View, first: Pass, d: Doc, d1: Doc)
    returns (es: seq<SysEvent>, w: View)
    requires hash(d.content) != hash(d1.content)
    requires d.version == Version(hash, d.content) && d1.version == Version(hash, d1.content)
    requires v.passes == map[0 := first, 1 := Computed(1, d.version, d1)]
    requires OnlySite(v.centre, "new") && Reaches(hash, before, 1, v)
    ensures Reaches(hash, es, 1, w) && OnlySite(w.centre, "new")
    ensures w.passes == map[0 := first, 1 := Full(1, d1)]
  {
    if d.version == d1.version {
      VersionDeterminesHash(hash, d.content, d1.content);
    }
    w := ByReply(hash, before, 1, v, 1);
    es := before + [Reply(1)];
  }

  /** The first pass has its answer and has not stored it yet. */
  lemma OldFetched(hash: Hash) returns (es: seq<SysEvent>, v: View, d: Doc)
    ensures Reaches(hash, es, 1, v)
    ensures v.passes == map[0 := Got(1, d, Some(d), true)]
    ensures d.content == Content("old", map[], map[]) && d.version == Version(hash, d.content)
    ensures v.mem.etag == d.version
    ensures OnlySite(v.centre, "old")
  {
    es, d := OldComputed(hash);
    v := View(Net("old"), SILENT, map[0 := Computed(1, "", d)], None);
    var w := ByReply(hash, es, 1, v, 0);
    HandOutKeepsSite(v.centre, "old");
    es, v := es + [Reply(0)], w;
    assert v.passes == map[0 := Full(1, d)];
    ByReceive(hash, es, 1, v, 0);
    es, v := es + [Receive(0)], v.(passes := map[0 := Got(1, d, Some(d), true)], mem := Tagged(v.mem, d.version));
  }

  lemma HandOutKeepsSite(c: Records, settings: string)
    requires OnlySite(c, settings)
    ensures OnlySite(Step(c, HandOut(1)), settings)
  {
  }

  lemma OldComputed(hash: Hash) returns (es: seq<SysEvent>, d: Doc)
    ensures Reaches(hash, es, 1, View(Net("old"), SILENT, map[0 := Computed(1, "", d)], None))
    ensures d.content == Content("old", map[], map[]) && d.version == Version(hash, d.content)
  {
    es := [];
    var v := View(EMPTY, SILENT, map[], None);
    ByCentre(hash, es, 1, v, EditSite(1, "old"));
    es, v := es + [Central(EditSite(1, "old"))], v.(centre := Net("old"));
    ByBegin(hash, es, 1, v, 0);
    es, v := es + [Begin(0, 1)], v.(passes := map[0 := Asked(1, "")]);
    d := ByCompute(hash, es, 1, v, 0);
    OnlySiteContent(v.centre, "old");
    es := es + [Compute(0)];
  }
}
