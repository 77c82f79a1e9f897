/** The central record of every blade (server/db.go, server/api.go, server/netboot.go):
    the rows, the operations that change them, the answer an installer gets, and what
    that answer says about everything that happened before it.

    Rows are values; one event is one handler, applied atomically. */
module Centre {
  import opened Wrappers
  import Latch

  type Serial = string
  type SiteId = nat

  /** Clock ticks (milliseconds) in one second of a stored RFC 3339 stamp. */
  const TICKS: nat := 1000
  const PROBE_FOR: nat := 30 * 60 * TICKS
  const PROBE_GRACE: nat := 60 * TICKS

  datatype InstallState = Idle | Pending | Done | Wipe

  datatype RunState = New | Enrolled | Online | Offline | Provisioning | Failed

  /** One row of the blades table. `at` is the site whose document lists the blade, that is,
      the site of its rack while it has an address there. `details` stands for every other
      field a document repeats (MAC, host name, address, slot, token, configuration). */
  datatype Blade = Blade(
    at: Option<SiteId>, image: string, install: InstallState, state: RunState,
    mac: string, probe: Option<nat>, probeSent: bool, details: string)

  datatype Session = Session(serial: Serial, image: string)

  datatype SiteRow = SiteRow(settings: string, desiredAt: Option<nat>)

  datatype Records = Records(
    clock: nat,
    blades: map<Serial, Blade>,
    sessions: map<string, Session>,
    catalogue: map<string, string>,
    sites: map<SiteId, SiteRow>)

  const EMPTY := Records(0, map[], map[], map[], map[])

  datatype Phase = PhaseError | PhaseWiped | PhaseDone | PhaseProgress

  datatype Event =
    | RequestInstall(serial: Serial, targetOk: bool)
    | RequestWipe(serial: Serial)
    | CancelInstall(serial: Serial)
    | ResetBlade(serial: Serial)
    | RequestProbe(serial: Serial)
    | ProbeStep(serial: Serial)
    | ChooseImage(mac: string, image: string, found: Option<Serial>)
    | AssignImage(serial: Serial, image: string)
    | AskJob(serial: Serial, mac: string, hardware: bool)
    | Report(serial: Serial, phase: Phase)
    | Place(serial: Serial, site: Option<SiteId>, details: string)
    | Renumber(serial: Serial, site: Option<SiteId>, details: string)
    | Enrol(serial: Serial, mac: string)
    | Heard(serial: Serial)
    | Silent(serial: Serial)
    | Forget(serial: Serial)
    | NetbootSeen(mac: string)
    | EditCatalogue(id: string, entry: Option<string>)
    | EditSite(siteId: SiteId, settings: string)
    | HandOut(siteId: SiteId)
    | Tick(ticks: nat)

  /** What hProvision tells the installer. */
  datatype Answer = Waiting | EraseJob | NoRequest | Go(image: string) | NotCatalogued

  /** A stored time: the clock cut down to whole seconds. */
  function Stamp(clock: nat): nat {
    clock / TICKS
  }

  function NewBlade(mac: string): Blade {
    Blade(None, "", Idle, New, mac, None, false, "")
  }

  function WithBlade(c: Records, s: Serial, b: Blade): Records {
    c.(blades := c.blades[s := b])
  }

  /** probeArmed: a reading of the clock, not a row that gets tidied up. */
  predicate ProbeArmed(b: Blade, clock: nat) {
    b.probe.Some? && clock < b.probe.value * TICKS + PROBE_FOR
  }

  function ClearProbe(b: Blade): Blade {
    b.(probe := None, probeSent := false)
  }

  // ---- The second half of a firmware reading ----

  datatype ProbeVerdict = Expired | Restart(becauseFetched: bool) | Hold

  function FetchedAt(c: Records, b: Blade): Option<nat> {
    if b.at.Some? && b.at.value in c.sites then c.sites[b.at.value].desiredAt else None
  }

  function ProbeDecision(c: Records, b: Blade): ProbeVerdict
    requires b.probe.Some?
  {
    var fetched := FetchedAt(c, b);
    if !ProbeArmed(b, c.clock) then Expired
    else if fetched.Some? && fetched.value > b.probe.value then Restart(true)
    else if fetched.None? && c.clock > b.probe.value * TICKS + PROBE_GRACE then Restart(false)
    else Hold
  }

  function ProbeStepped(c: Records, b: Blade): Blade {
    if b.probe.None? || b.probeSent then b
    else match ProbeDecision(c, b)
      case Expired => ClearProbe(b)
      case Restart(_) => b.(probeSent := true)
      case Hold => b
  }

  // ---- The installer's question ----

  /** The blade a choice in the netboot panel is about: the one its session is linked to,
      and otherwise whichever row the look-up by MAC returned. */
  function ChosenBlade(c: Records, mac: string, found: Option<Serial>): Option<Serial> {
    if mac in c.sessions && c.sessions[mac].serial != "" then Some(c.sessions[mac].serial)
    else if found.Some? && found.value in c.blades && c.blades[found.value].mac == mac then found
    else None
  }

  /** One row when hProvision comes to decide: a firmware reading answered, and the image
      chosen for its netboot session (`offered`, possibly none) adopted if it has none. */
  function GreetedRow(b: Blade, mac: string, offered: string, hardware: bool): (r: Blade)
    ensures r.install == b.install && r.state == b.state && r.at == b.at && r.details == b.details
  {
    var b2 := if hardware && b.probe.Some? then ClearProbe(b) else b;
    if mac == "" then b2
    else b2.(mac := if b2.mac == "" then mac else b2.mac,
             image := if b2.image == "" then offered else b2.image)
  }

  /** The rows at that moment: the blade enrolled if it was unknown, its session linked. */
  function Greeted(c: Records, s: Serial, mac: string, hardware: bool): (r: Records)
    ensures s in r.blades
  {
    var b := if s in c.blades then c.blades[s] else NewBlade("");
    var known := mac != "" && mac in c.sessions;
    var offered := if known then c.sessions[mac].image else "";
    var linked := if known then c.sessions[mac := c.sessions[mac].(serial := s)] else c.sessions;
    WithBlade(c.(sessions := linked), s, GreetedRow(b, mac, offered, hardware))
  }

  function Decide(c: Records, b: Blade): Answer {
    if b.image == "" then Waiting
    else if b.install == Wipe then EraseJob
    else if b.install != Pending then NoRequest
    else if b.image !in c.catalogue then NotCatalogued
    else Go(b.image)
  }

  /** hProvision: the rows afterwards and the answer given. */
  function Provision(c: Records, s: Serial, mac: string, hardware: bool): (Records, Answer) {
    var g := Greeted(c, s, mac, hardware);
    var answer := Decide(g, g.blades[s]);
    if answer.EraseJob? || answer.Go?
    then (WithBlade(g, s, g.blades[s].(state := Provisioning)), answer)
    else (g, answer)
  }

  function Reported(b: Blade, phase: Phase): Blade {
    match phase
    case PhaseError => b.(state := Failed)
    case PhaseWiped => b.(at := None, image := "", install := Idle, state := New)
    case PhaseDone => b.(state := RunState.Enrolled, install := Done)
    case PhaseProgress => b
  }

  function Reset(b: Blade): Blade {
    b.(at := None, image := "", install := Idle, state := New, probe := None, probeSent := false)
  }

  function Placed(b: Blade, site: Option<SiteId>, details: string): Blade {
    if site.None? then
      b.(at := None, state := if b.state == Online || b.state == RunState.Enrolled then New else b.state)
    else
      b.(at := site, details := details, state := if b.state == New then RunState.Enrolled else b.state)
  }

  predicate Forgettable(b: Blade) {
    b.at.None? && b.install != Pending && b.install != Wipe && b.state != Provisioning && b.state != Online
  }

  /** One handler. A refused request leaves everything as it was. */
  function Step(c: Records, e: Event): Records {
    match e
    case Tick(ticks) => c.(clock := c.clock + ticks)
    case EditSite(site, settings) =>
      c.(sites := c.sites[site := if site in c.sites then c.sites[site].(settings := settings)
                                  else SiteRow(settings, None)])
    case HandOut(site) =>
      if site in c.sites
      then c.(sites := c.sites[site := c.sites[site].(desiredAt := Some(Stamp(c.clock)))]) else c
    case EditCatalogue(id, entry) =>
      if entry.Some? then c.(catalogue := c.catalogue[id := entry.value])
      else c.(catalogue := c.catalogue - {id})
    case NetbootSeen(mac) =>
      if mac == "" || mac in c.sessions then c
      else c.(sessions := c.sessions[mac := Session("", "")])
    case ChooseImage(mac, image, found) =>
      var c1 := if mac in c.sessions
                then c.(sessions := c.sessions[mac := c.sessions[mac].(image := image)]) else c;
      var who := ChosenBlade(c, mac, found);
      if who.Some? && who.value in c1.blades
      then WithBlade(c1, who.value, c1.blades[who.value].(image := image, install := Pending)) else c1
    case AskJob(s, mac, hardware) => Provision(c, s, mac, hardware).0
    case Enrol(s, mac) =>
      if s !in c.blades then WithBlade(c, s, NewBlade(mac))
      else if mac == "" then c
      else WithBlade(c, s, c.blades[s].(mac := mac))
    case Forget(s) =>
      if s in c.blades && Forgettable(c.blades[s]) then
        c.(blades := c.blades - {s},
           sessions := map m | m in c.sessions && c.sessions[m].serial != s :: c.sessions[m])
      else c
    case _ =>
      if e.serial in c.blades then WithBlade(c, e.serial, RowStep(c, c.blades[e.serial], e)) else c
  }

  predicate RowEvent(e: Event) {
    || e.RequestInstall? || e.RequestWipe? || e.CancelInstall? || e.ResetBlade? || e.RequestProbe?
    || e.ProbeStep? || e.AssignImage? || e.Report? || e.Place? || e.Renumber? || e.Heard? || e.Silent?
  }

  /** The events that change one existing row and nothing else. */
  function RowStep(c: Records, b: Blade, e: Event): Blade
    requires RowEvent(e)
  {
    match e
    case RequestInstall(_, targetOk) => if targetOk && b.image != "" then b.(install := Pending) else b
    case RequestWipe(_) => b.(install := Wipe)
    case CancelInstall(_) => if (b.install == Pending || b.install == Wipe) then b.(install := Idle) else b
    case ResetBlade(_) => if b.state == Provisioning then b else Reset(b)
    case RequestProbe(_) =>
      if (b.install == Pending || b.install == Wipe) then b
      else b.(probe := Some(Stamp(c.clock)), probeSent := false)
    case ProbeStep(_) => ProbeStepped(c, b)
    case AssignImage(_, image) => b.(image := image)
    case Report(_, phase) => Reported(b, phase)
    case Place(_, site, details) => Placed(b, site, details)
    case Renumber(_, site, details) => b.(at := site, details := details)
    case Heard(_) => if b.state == Provisioning then b else b.(state := Online)
    case Silent(_) => if b.state == Online then b.(state := Offline) else b
  }

  /** The rows after a whole run, oldest event first. */
  function After(es: seq<Event>): Records {
    if es == [] then EMPTY else Step(After(es[..|es| - 1]), es[|es| - 1])
  }

  // ---- What an armed job says about the past ----

  datatype Job = Install | Erase

  /** The job a blade is armed for, if any. */
  function Armed(c: Records, s: Serial): Option<Job> {
    if s !in c.blades then None
    else if c.blades[s].install == Pending then Some(Install)
    else if c.blades[s].install == Wipe then Some(Erase)
    else None
  }

  /** Somebody asks for this job and is not refused. */
  predicate Opens(c: Records, e: Event, s: Serial, job: Job) {
    s in c.blades &&
    match e
    case RequestInstall(t, targetOk) => job == Install && t == s && targetOk && c.blades[s].image != ""
    case ChooseImage(mac, _, found) => job == Install && ChosenBlade(c, mac, found) == Some(s)
    case RequestWipe(t) => job == Erase && t == s
    case _ => false
  }

  /** Something ends the job: it is reported finished, called off, the blade is reset,
      or the other job takes its place. */
  predicate Closes(c: Records, e: Event, s: Serial, job: Job) {
    s in c.blades &&
    match e
    case CancelInstall(t) => t == s
    case ResetBlade(t) => t == s && c.blades[s].state != Provisioning
    case Report(t, phase) => t == s && (phase == PhaseDone || phase == PhaseWiped)
    case _ => Opens(c, e, s, if job == Install then Erase else Install)
  }

  /** Whether event i of a run opens the job, and whether it closes it. */
  ghost function OpensAt(es: seq<Event>, s: Serial, job: Job): nat -> bool {
    (i: nat) => i < |es| && Opens(After(es[..i]), es[i], s, job)
  }

  ghost function ClosesAt(es: seq<Event>, s: Serial, job: Job): nat -> bool {
    (i: nat) => i < |es| && Closes(After(es[..i]), es[i], s, job)
  }

  /** The job was asked for at some event of the run and no later event closed it. */
  ghost predicate Standing(es: seq<Event>, s: Serial, job: Job) {
    exists i: nat :: Latch.SetAt(|es|, OpensAt(es, s, job), ClosesAt(es, s, job), i)
  }

  /** The row events, one row at a time. */
  lemma RowArmedStep(c: Records, e: Event, s: Serial, job: Job)
    requires RowEvent(e) && e.serial in c.blades
    ensures Armed(Step(c, e), s) == Some(job) <==>
            Opens(c, e, s, job) || (Armed(c, s) == Some(job) && !Closes(c, e, s, job))
  {
    var b := c.blades[e.serial];
    assert Step(c, e) == WithBlade(c, e.serial, RowStep(c, b, e));
  }

  /** Asking for a job arms nothing and disarms nothing. */
  lemma GreetingKeepsJobs(c: Records, t: Serial, mac: string, hardware: bool, s: Serial)
    ensures Armed(Greeted(c, t, mac, hardware), s) == Armed(c, s)
    ensures Armed(Provision(c, t, mac, hardware).0, s) == Armed(c, s)
  {
    var g := Greeted(c, t, mac, hardware);
    assert Armed(g, s) == Armed(c, s);
  }

  /** One step: a job is armed afterwards exactly if it was opened just now, or was armed
      and has not been closed. */
  lemma ArmedStep(c: Records, e: Event, s: Serial, job: Job)
    ensures Armed(Step(c, e), s) == Some(job) <==>
            Opens(c, e, s, job) || (Armed(c, s) == Some(job) && !Closes(c, e, s, job))
  {
    if RowEvent(e) {
      if e.serial in c.blades {
        RowArmedStep(c, e, s, job);
      }
    } else if e.AskJob? {
      GreetingKeepsJobs(c, e.serial, e.mac, e.hardware, s);
    } else if e.ChooseImage? {
      ChoosingArms(c, e, s, job);
    } else {
      OthersArmNothing(c, e, s);
    }
  }

  lemma OthersArmNothing(c: Records, e: Event, s: Serial)
    requires !RowEvent(e) && !e.AskJob? && !e.ChooseImage?
    ensures Armed(Step(c, e), s) == Armed(c, s)
  {
  }

  lemma ChoosingArms(c: Records, e: Event, s: Serial, job: Job)
    requires e.ChooseImage?
    ensures Armed(Step(c, e), s) == Some(job) <==>
            Opens(c, e, s, job) || (Armed(c, s) == Some(job) && !Closes(c, e, s, job))
  {
    var who := ChosenBlade(c, e.mac, e.found);
    assert Step(c, e).blades ==
      if who.Some? && who.value in c.blades
      then c.blades[who.value := c.blades[who.value].(image := e.image, install := Pending)] else c.blades;
  }

  ghost function ArmedAt(es: seq<Event>, s: Serial, job: Job): nat -> bool {
    (i: nat) => i <= |es| && Armed(After(es[..i]), s) == Some(job)
  }

  lemma ArmedAtNext(es: seq<Event>, s: Serial, job: Job, i: nat)
    requires i < |es|
    ensures ArmedAt(es, s, job)(i + 1) <==>
            OpensAt(es, s, job)(i) || (ArmedAt(es, s, job)(i) && !ClosesAt(es, s, job)(i))
  {
    assert es[..i + 1][..i] == es[..i];
    ArmedStep(After(es[..i]), es[i], s, job);
  }

  /** Over every run: a blade is armed for a job exactly when that job was asked for and
      has been neither finished, called off, reset nor replaced since. */
  lemma {:induction false} ArmedIffStanding(es: seq<Event>, s: Serial, job: Job)
    ensures Armed(After(es), s) == Some(job) <==> Standing(es, s, job)
  {
    var up, sets, clears := ArmedAt(es, s, job), OpensAt(es, s, job), ClosesAt(es, s, job);
    forall i: nat {:trigger sets(i)} | i < |es| ensures up(i + 1) <==> sets(i) || (up(i) && !clears(i)) {
      ArmedAtNext(es, s, job, i);
    }
    assert !up(0) by { assert es[..0] == []; }
    Latch.UpIffSet(|es|, up, sets, clears);
    assert es[..|es|] == es;
  }

  /** The image of a blade that asks: the one it is assigned stays; only a blade without one, or not known before,
      gets the image chosen for the netboot session of its MAC, if there is such a session. */
  lemma AskingKeepsTheAssignedImage(c: Records, s: Serial, mac: string, hardware: bool)
    ensures var d := Provision(c, s, mac, hardware).0;
            && s in d.blades && d.catalogue == c.catalogue
            && (s in c.blades && c.blades[s].image != "" ==> d.blades[s].image == c.blades[s].image)
            && (s !in c.blades || c.blades[s].image == "" ==>
                  d.blades[s].image == if mac != "" && mac in c.sessions then c.sessions[mac].image else "")
  {
  }

  /** "go" from the centre: an install was requested and stands; with the image the blade is assigned, and else with
      the one chosen for its session. And whoever has a standing request and such an image in the catalogue is told to
      go. */
  lemma GoMeansStandingRequest(es: seq<Event>, s: Serial, mac: string, hardware: bool)
    ensures var c := After(es);
            var (d, answer) := Provision(c, s, mac, hardware);
            && s in d.blades
            && (s in c.blades && c.blades[s].image != "" ==> d.blades[s].image == c.blades[s].image)
            && (s !in c.blades || c.blades[s].image == "" ==>
                  d.blades[s].image == if mac != "" && mac in c.sessions then c.sessions[mac].image else "")
            && (answer.Go? <==>
                  Standing(es, s, Install) && d.blades[s].image != "" && d.blades[s].image in c.catalogue)
            && (answer.Go? ==> answer.image == d.blades[s].image)
  {
    ArmedIffStanding(es, s, Install);
    GreetingKeepsJobs(After(es), s, mac, hardware, s);
    AskingKeepsTheAssignedImage(After(es), s, mac, hardware);
  }

  /** An erase is handed out exactly while it stands and the blade has an image: an erase armed
      on a blade without one is answered "waiting". */
  lemma EraseMeansStandingRequest(es: seq<Event>, s: Serial, mac: string, hardware: bool)
    ensures var c := After(es);
            var (d, answer) := Provision(c, s, mac, hardware);
            && s in d.blades
            && (answer.EraseJob? <==> Standing(es, s, Erase) && d.blades[s].image != "")
            && (Standing(es, s, Erase) && d.blades[s].image == "" ==> answer == Waiting)
  {
    ArmedIffStanding(es, s, Erase);
    GreetingKeepsJobs(After(es), s, mac, hardware, s);
    AskingKeepsTheAssignedImage(After(es), s, mac, hardware);
  }

  /** The other answers, over every run: "waiting" exactly without an image; "idle" exactly with one and nothing
      requested; a refusal exactly for an install of an image that is not in the catalogue. */
  lemma OtherAnswersMean(es: seq<Event>, s: Serial, mac: string, hardware: bool)
    ensures var c := After(es);
            var (d, answer) := Provision(c, s, mac, hardware);
            && s in d.blades
            && (answer.Waiting? <==> d.blades[s].image == "")
            && (answer.NoRequest? <==>
                  d.blades[s].image != "" && !Standing(es, s, Install) && !Standing(es, s, Erase))
            && (answer.NotCatalogued? <==>
                  d.blades[s].image != "" && Standing(es, s, Install) && d.blades[s].image !in c.catalogue)
  {
    ArmedIffStanding(es, s, Install);
    ArmedIffStanding(es, s, Erase);
    GreetingKeepsJobs(After(es), s, mac, hardware, s);
    AskingKeepsTheAssignedImage(After(es), s, mac, hardware);
  }

  /** A blade with a standing job cannot be deleted from the inventory. */
  lemma StandingJobIsKept(es: seq<Event>, s: Serial, job: Job)
    requires Standing(es, s, job)
    ensures s in After(es).blades
    ensures Step(After(es), Forget(s)) == After(es)
  {
    ArmedIffStanding(es, s, job);
  }

  // ---- What one step leaves alone ----

  /** The clock has not been turned back and nothing has touched the time a site last took a
      full document. */
  predicate ClockAndSitesKept(c: Records, d: Records) {
    && c.clock <= d.clock
    && (forall i :: i in c.sites ==> i in d.sites && d.sites[i].desiredAt == c.sites[i].desiredAt)
    && (forall i :: i in d.sites && i !in c.sites ==> d.sites[i].desiredAt == None)
  }

  lemma StepKeepsClockAndSites(c: Records, e: Event)
    ensures c.clock <= Step(c, e).clock
    ensures !e.HandOut? ==> ClockAndSitesKept(c, Step(c, e))
  {
    if RowEvent(e) && e.serial in c.blades {
      assert Step(c, e) == WithBlade(c, e.serial, RowStep(c, c.blades[e.serial], e));
    }
  }

  /** The arming a blade carries: the stamp of its firmware reading. */
  function ProbeOf(c: Records, s: Serial): Option<nat> {
    if s in c.blades then c.blades[s].probe else None
  }

  predicate ArmsProbe(c: Records, e: Event) {
    e.RequestProbe? && e.serial in c.blades
    && c.blades[e.serial].install != Pending && c.blades[e.serial].install != Wipe
  }

  /** The row events change no blade's arming but the named one's. */
  lemma RowProbeOnlyByRequest(c: Records, b: Blade, e: Event)
    requires RowEvent(e)
    ensures var armed := e.RequestProbe? && b.install != Pending && b.install != Wipe;
            && (armed ==> RowStep(c, b, e).probe == Some(Stamp(c.clock)))
            && (!armed ==> RowStep(c, b, e).probe == None || RowStep(c, b, e).probe == b.probe)
  {
  }

  /** A firmware reading is armed by an accepted request, stamped with the second it was made
      in, and by nothing else. */
  lemma ProbeOnlyByRequest(c: Records, e: Event, s: Serial)
    ensures ArmsProbe(c, e) && e.serial == s ==> ProbeOf(Step(c, e), s) == Some(Stamp(c.clock))
    ensures !(ArmsProbe(c, e) && e.serial == s) ==>
              ProbeOf(Step(c, e), s) == None || ProbeOf(Step(c, e), s) == ProbeOf(c, s)
  {
    if RowEvent(e) {
      if e.serial in c.blades {
        RowProbeOnlyByRequest(c, c.blades[e.serial], e);
        var r := RowStep(c, c.blades[e.serial], e);
        assert Step(c, e) == WithBlade(c, e.serial, r);
        assert ProbeOf(WithBlade(c, e.serial, r), s) == if s == e.serial then r.probe else ProbeOf(c, s);
      }
    } else {
      OthersArmNoProbe(c, e, s);
    }
  }

  lemma OthersArmNoProbe(c: Records, e: Event, s: Serial)
    requires !RowEvent(e)
    ensures ProbeOf(Step(c, e), s) == None || ProbeOf(Step(c, e), s) == ProbeOf(c, s)
  {
  }
}
