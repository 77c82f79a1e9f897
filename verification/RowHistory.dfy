/** Where every field of a row comes from: for each fact about a blade or a netboot session the events that make it
    true and those that end it, and one theorem over all runs (server/db.go, server/api.go, server/netboot.go). */
module RowHistory {
  import opened Wrappers
  import opened Centre
  import opened CentreLaws
  import Latch

  datatype Fact =
    | Assigned(image: string)
    | StandsAt(site: SiteId)
    | HasMac(mac: string)
    | Shows(details: string)
    | Finished
    | ReadingFrom(second: nat)
    | Restarted
    | IsEnrolled
    | IsOnline
    | IsOffline
    | HasFailed

  /** Nothing is said of a field without a value. */
  predicate Proper(f: Fact) {
    match f
    case Assigned(image) => image != ""
    case HasMac(mac) => mac != ""
    case Shows(details) => details != ""
    case _ => true
  }

  predicate Says(c: Records, s: Serial, f: Fact) {
    s in c.blades && RowSays(c.blades[s], f)
  }

  predicate RowSays(b: Blade, f: Fact) {
    match f
    case Assigned(image) => b.image == image
    case StandsAt(site) => b.at == Some(site)
    case HasMac(mac) => b.mac == mac
    case Shows(details) => b.details == details
    case Finished => b.install == Done
    case ReadingFrom(second) => b.probe == Some(second)
    case Restarted => b.probeSent
    case IsEnrolled => b.state == RunState.Enrolled
    case IsOnline => b.state == Online
    case IsOffline => b.state == Offline
    case HasFailed => b.state == Failed
  }

  // ---- What makes a fact, and what ends it ----

  /** The blade is emptied: its installer reports an erase, or it is reset while in no installer's hands. */
  predicate Empties(c: Records, e: Event, s: Serial) {
    (e.Report? && e.serial == s && e.phase == PhaseWiped) || Resets(c, e, s)
  }

  predicate Resets(c: Records, e: Event, s: Serial) {
    e.ResetBlade? && e.serial == s && !IsProvisioning(c, s)
  }

  predicate Chooses(c: Records, e: Event, s: Serial) {
    e.ChooseImage? && ChosenBlade(c, e.mac, e.found) == Some(s)
  }

  predicate Deletes(c: Records, e: Event, s: Serial) {
    e.Forget? && e.serial == s && s in c.blades && Forgettable(c.blades[s])
  }

  /** A firmware reading is asked for and not refused. */
  predicate Arms(c: Records, e: Event, s: Serial) {
    e.RequestProbe? && e.serial == s && s in c.blades && Armed(c, s) == None
  }

  predicate Reads(e: Event, s: Serial) {
    e.AskJob? && e.serial == s && e.hardware
  }

  predicate Places(e: Event, s: Serial) {
    (e.Place? || e.Renumber?) && e.serial == s
  }

  /** The blade gets an address: placed at a site, or renumbered where it stands. */
  predicate Moves(e: Event, s: Serial) {
    (e.Place? && e.serial == s && e.site.Some?) || (e.Renumber? && e.serial == s)
  }

  predicate Reports(e: Event, s: Serial, phase: Phase) {
    e.Report? && e.serial == s && e.phase == phase
  }

  /** The sweep restarts a blade: within half an hour of the arming, once its site has taken a document in a later
      second, or after a minute where none was ever taken. */
  predicate SweepRestarts(c: Records, e: Event, s: Serial) {
    e.ProbeStep? && e.serial == s && s in c.blades && c.blades[s].probe.Some? &&
    var b := c.blades[s];
    var since := 1000 * b.probe.value;
    var taken := b.at.Some? && b.at.value in c.sites && c.sites[b.at.value].desiredAt.Some?;
    && c.clock < since + 1_800_000
    && if taken then c.sites[b.at.value].desiredAt.value > b.probe.value else c.clock > since + 60_000
  }

  /** The sweep gives up an arming half an hour old whose blade was not restarted. */
  predicate SweepGivesUp(c: Records, e: Event, s: Serial) {
    e.ProbeStep? && e.serial == s && s in c.blades && c.blades[s].probe.Some? &&
    !c.blades[s].probeSent && c.clock >= 1000 * c.blades[s].probe.value + 1_800_000
  }

  predicate Makes(c: Records, e: Event, s: Serial, f: Fact) {
    match f
    case Assigned(image) =>
      || (s in c.blades && e == AssignImage(s, image))
      || (s in c.blades && Chooses(c, e, s) && e.image == image)
      || (e.AskJob? && e.serial == s && e.mac != "" && e.mac in c.sessions && c.sessions[e.mac].image == image
          && (s in c.blades ==> c.blades[s].image == ""))
    case StandsAt(site) => s in c.blades && Places(e, s) && e.site == Some(site)
    case HasMac(mac) =>
      || e == Enrol(s, mac)
      || (e.AskJob? && e.serial == s && e.mac == mac && (s in c.blades ==> c.blades[s].mac == ""))
    case Shows(details) => s in c.blades && Moves(e, s) && e.details == details
    case Finished => s in c.blades && Reports(e, s, PhaseDone)
    case ReadingFrom(second) => Arms(c, e, s) && 1000 * second <= c.clock < 1000 * second + 1000
    case Restarted => SweepRestarts(c, e, s)
    case IsEnrolled =>
      || (s in c.blades && Reports(e, s, PhaseDone))
      || (s in c.blades && e.Place? && e.serial == s && e.site.Some? && c.blades[s].state == New)
    case IsOnline => e == Heard(s) && s in c.blades && !IsProvisioning(c, s)
    case IsOffline => e == Silent(s) && Says(c, s, IsOnline)
    case HasFailed => s in c.blades && Reports(e, s, PhaseError)
  }

  predicate Breaks(c: Records, e: Event, s: Serial, f: Fact) {
    match f
    case Assigned(_) =>
      Empties(c, e, s) || Deletes(c, e, s) || (e.AssignImage? && e.serial == s) || Chooses(c, e, s)
    case StandsAt(_) => Empties(c, e, s) || Places(e, s)
    case HasMac(_) => Deletes(c, e, s) || (e.Enrol? && e.serial == s && e.mac != "")
    case Shows(_) => Deletes(c, e, s) || Moves(e, s)
    case Finished =>
      Empties(c, e, s) || Deletes(c, e, s) || Opens(c, e, s, Install) || Opens(c, e, s, Erase)
    case ReadingFrom(_) =>
      Resets(c, e, s) || Deletes(c, e, s) || Arms(c, e, s) || Reads(e, s) || SweepGivesUp(c, e, s)
    case Restarted => Resets(c, e, s) || Deletes(c, e, s) || Arms(c, e, s) || Reads(e, s)
    case IsEnrolled =>
      || Ends(e, s) || Resets(c, e, s) || HandsOut(c, e, s) || Deletes(c, e, s) || e == Heard(s)
      || (e.Place? && e.serial == s && e.site == None)
    case IsOnline =>
      || Ends(e, s) || Resets(c, e, s) || HandsOut(c, e, s) || e == Silent(s)
      || (e.Place? && e.serial == s && e.site == None)
    case IsOffline => Ends(e, s) || Resets(c, e, s) || HandsOut(c, e, s) || Deletes(c, e, s) || e == Heard(s)
    case HasFailed => Ends(e, s) || Resets(c, e, s) || HandsOut(c, e, s) || Deletes(c, e, s) || e == Heard(s)
  }

  // ---- One step ----

  predicate OfState(f: Fact) {
    f.IsEnrolled? || f.IsOnline? || f.IsOffline? || f.HasFailed?
  }

  lemma RowStateStep(c: Records, e: Event, s: Serial, f: Fact)
    requires RowEvent(e) && e.serial == s && s in c.blades && OfState(f) && !f.IsEnrolled?
    ensures RowFollows(c, e, s, f)
  {
  }

  lemma RowEnrolledStep(c: Records, e: Event, s: Serial, f: Fact)
    requires RowEvent(e) && e.serial == s && s in c.blades && f.IsEnrolled?
    ensures RowFollows(c, e, s, f)
  {
  }

  lemma RowReadingStep(c: Records, e: Event, s: Serial, f: Fact)
    requires RowEvent(e) && e.serial == s && s in c.blades && (f.ReadingFrom? || f.Restarted?)
    requires f.Restarted? ==> OnlyArmedRestart(c, s)
    ensures RowFollows(c, e, s, f)
  {
  }

  lemma RowFactStep(c: Records, e: Event, s: Serial, f: Fact)
    requires RowEvent(e) && e.serial == s && s in c.blades && Proper(f)
    requires f.Restarted? ==> OnlyArmedRestart(c, s)
    ensures RowFollows(c, e, s, f)
  {
    if f.IsEnrolled? {
      RowEnrolledStep(c, e, s, f);
    } else if OfState(f) {
      RowStateStep(c, e, s, f);
    } else if f.ReadingFrom? || f.Restarted? {
      RowReadingStep(c, e, s, f);
    } else if f.Assigned? || f.Finished? {
      RowImageStep(c, e, s, f);
    } else {
      RowPlaceStep(c, e, s, f);
    }
  }

  lemma RowImageStep(c: Records, e: Event, s: Serial, f: Fact)
    requires RowEvent(e) && e.serial == s && s in c.blades && Proper(f) && (f.Assigned? || f.Finished?)
    ensures RowFollows(c, e, s, f)
  {
  }

  lemma RowPlaceStep(c: Records, e: Event, s: Serial, f: Fact)
    requires RowEvent(e) && e.serial == s && s in c.blades && (f.StandsAt? || f.HasMac? || f.Shows?)
    ensures RowFollows(c, e, s, f)
  {
  }

  ghost predicate RowFollows(c: Records, e: Event, s: Serial, f: Fact)
    requires RowEvent(e) && s in c.blades
  {
    RowSays(RowStep(c, c.blades[s], e), f) <==> Makes(c, e, s, f) || (RowSays(c.blades[s], f) && !Breaks(c, e, s, f))
  }

  /** A blade counts as restarted only for a reading. */
  predicate OnlyArmedRestart(c: Records, s: Serial) {
    s in c.blades && c.blades[s].probeSent ==> c.blades[s].probe.Some?
  }

  /** A law for one step, event and fact. */
  ghost predicate Follows(c: Records, e: Event, s: Serial, f: Fact) {
    Says(Step(c, e), s, f) <==> Makes(c, e, s, f) || (Says(c, s, f) && !Breaks(c, e, s, f))
  }

  /** Changing one row changes what is said of that blade. */
  lemma Swapped(c: Records, t: Serial, r: Blade, s: Serial, f: Fact)
    requires t in c.blades
    ensures Says(WithBlade(c, t, r), s, f) <==> if t == s then RowSays(r, f) else Says(c, s, f)
  {
  }

  lemma RowEventIs(c: Records, e: Event)
    requires RowEvent(e)
    ensures Step(c, e) == if e.serial in c.blades then WithBlade(c, e.serial, RowStep(c, c.blades[e.serial], e)) else c
  {
  }

  lemma RowEventStep(c: Records, e: Event, s: Serial, f: Fact)
    requires RowEvent(e) && Proper(f) && (f.Restarted? ==> OnlyArmedRestart(c, s))
    ensures Follows(c, e, s, f)
  {
    RowEventIs(c, e);
    if e.serial in c.blades { Swapped(c, e.serial, RowStep(c, c.blades[e.serial], e), s, f); }
    if e.serial == s && s in c.blades {
      RowFactStep(c, e, s, f);
    } else {
      RowEventElsewhere(c, e, s, f);
    }
  }

  lemma RowEventElsewhere(c: Records, e: Event, s: Serial, f: Fact)
    requires RowEvent(e) && (e.serial != s || s !in c.blades)
    ensures !Makes(c, e, s, f) && (Says(c, s, f) ==> !Breaks(c, e, s, f))
  {
  }

  lemma AskedStep(c: Records, e: Event, s: Serial, f: Fact)
    requires e.AskJob? && Proper(f) && (f.Restarted? ==> OnlyArmedRestart(c, s))
    ensures Follows(c, e, s, f)
  {
    var d := Provision(c, e.serial, e.mac, e.hardware).0;
    if e.serial != s {
      SameRows(c, d, s, f);
      assert !Makes(c, e, s, f) && !Breaks(c, e, s, f);
    } else if s in c.blades {
      AskedKnown(c, e, s, f);
    } else {
      AskedUnknown(c, e, s, f);
    }
  }

  lemma AskedKnown(c: Records, e: Event, s: Serial, f: Fact)
    requires e.AskJob? && e.serial == s && s in c.blades && Proper(f)
    requires f.Restarted? ==> OnlyArmedRestart(c, s)
    ensures Follows(c, e, s, f)
  {
    var (d, answer) := Provision(c, s, e.mac, e.hardware);
    if OfState(f) { AskedState(c, e, s, f); } else { AskedRest(c, e, s, f); }
  }

  lemma AskedRest(c: Records, e: Event, s: Serial, f: Fact)
    requires e.AskJob? && e.serial == s && s in c.blades && Proper(f) && !OfState(f)
    requires f.Restarted? ==> OnlyArmedRestart(c, s)
    ensures Follows(c, e, s, f)
  {
    AskingMeans(c, s, e.mac, e.hardware);
    AskingKeepsTheAssignedImage(c, s, e.mac, e.hardware);
  }

  lemma AskedState(c: Records, e: Event, s: Serial, f: Fact)
    requires e.AskJob? && e.serial == s && s in c.blades && OfState(f)
    ensures Follows(c, e, s, f)
  {
    AskingMeans(c, s, e.mac, e.hardware);
  }

  lemma AskedUnknown(c: Records, e: Event, s: Serial, f: Fact)
    requires e.AskJob? && e.serial == s && s !in c.blades && Proper(f)
    ensures Follows(c, e, s, f)
  {
    var (d, answer) := Provision(c, s, e.mac, e.hardware);
    AskingMeans(c, s, e.mac, e.hardware);
    AskingKeepsTheAssignedImage(c, s, e.mac, e.hardware);
    assert d.blades[s].state == New && d.blades[s].probe == None && !d.blades[s].probeSent;
  }

  lemma ChosenStep(c: Records, e: Event, s: Serial, f: Fact)
    requires e.ChooseImage? && Proper(f)
    ensures Follows(c, e, s, f)
  {
    if Chooses(c, e, s) && s in c.blades {
      ChosenBladeStep(c, e, s, f);
    } else {
      SameRows(c, Step(c, e), s, f);
      assert !Makes(c, e, s, f) && !(Says(c, s, f) && Breaks(c, e, s, f));
    }
  }

  lemma ChosenBladeStep(c: Records, e: Event, s: Serial, f: Fact)
    requires Chooses(c, e, s) && s in c.blades && Proper(f)
    ensures Follows(c, e, s, f)
  {
    assert Step(c, e).blades[s] == c.blades[s].(image := e.image, install := Pending);
  }

  lemma ForgetStep(c: Records, e: Event, s: Serial, f: Fact)
    requires e.Forget? && Proper(f)
    ensures Follows(c, e, s, f)
  {
    assert Says(Step(c, e), s, f) <==> Says(c, s, f) && !Breaks(c, e, s, f);
  }

  lemma EnrolStep(c: Records, e: Event, s: Serial, f: Fact)
    requires e.Enrol? && Proper(f)
    ensures Follows(c, e, s, f)
  {
    if e.serial == s {
      EnrolledStep(c, e, s, f);
    } else {
      SameRows(c, Step(c, e), s, f);
      assert !Makes(c, e, s, f) && !Breaks(c, e, s, f);
    }
  }

  lemma EnrolledStep(c: Records, e: Event, s: Serial, f: Fact)
    requires e.Enrol? && e.serial == s && Proper(f)
    ensures Follows(c, e, s, f)
  {
    assert Makes(c, e, s, f) <==> f.HasMac? && f.mac == e.mac;
  }

  /** The clock, the sites, the catalogue and a blade first seen on the network are in no row. */
  lemma QuietStep(c: Records, e: Event, s: Serial, f: Fact)
    requires e.Tick? || e.EditSite? || e.HandOut? || e.EditCatalogue? || e.NetbootSeen?
    ensures Follows(c, e, s, f)
  {
    SameRows(c, Step(c, e), s, f);
    NothingQuiet(c, e, s, f);
  }

  lemma SameRows(c: Records, d: Records, s: Serial, f: Fact)
    requires s in d.blades <==> s in c.blades
    requires s in c.blades ==> d.blades[s] == c.blades[s]
    ensures Says(d, s, f) <==> Says(c, s, f)
  {
  }

  lemma NothingQuiet(c: Records, e: Event, s: Serial, f: Fact)
    requires e.Tick? || e.EditSite? || e.HandOut? || e.EditCatalogue? || e.NetbootSeen?
    ensures !Makes(c, e, s, f) && !Breaks(c, e, s, f)
  {
  }

  lemma AnyStep(c: Records, e: Event, s: Serial, f: Fact)
    requires Proper(f) && (f.Restarted? ==> OnlyArmedRestart(c, s))
    ensures Follows(c, e, s, f)
  {
    if RowEvent(e) { RowEventStep(c, e, s, f); }
    else {
      match e
      case AskJob(_, _, _) => AskedStep(c, e, s, f);
      case ChooseImage(_, _, _) => ChosenStep(c, e, s, f);
      case Forget(_) => ForgetStep(c, e, s, f);
      case Enrol(_, _) => EnrolStep(c, e, s, f);
      case _ => QuietStep(c, e, s, f);
    }
  }

  lemma RowStaysArmed(c: Records, b: Blade, e: Event)
    requires RowEvent(e) && (b.probeSent ==> b.probe.Some?)
    ensures var r := RowStep(c, b, e); r.probeSent ==> r.probe.Some?
  {
  }

  lemma StaysArmed(c: Records, e: Event, s: Serial)
    requires OnlyArmedRestart(c, s)
    ensures OnlyArmedRestart(Step(c, e), s)
  {
    if RowEvent(e) {
      RowEventIs(c, e);
      if e.serial in c.blades && e.serial == s { RowStaysArmed(c, c.blades[s], e); }
    }
  }

  lemma {:induction false} RestartsAreArmed(es: seq<Event>, s: Serial)
    ensures OnlyArmedRestart(After(es), s)
  {
    if es != [] {
      var c, e := After(es[..|es| - 1]), es[|es| - 1];
      RestartsAreArmed(es[..|es| - 1], s);
      StaysArmed(c, e, s);
    }
  }

  // ---- Over every run ----

  ghost function SaysAt(es: seq<Event>, s: Serial, f: Fact): nat -> bool {
    (i: nat) => i <= |es| && Says(After(es[..i]), s, f)
  }

  ghost function MakesAt(es: seq<Event>, s: Serial, f: Fact): nat -> bool {
    (i: nat) => i < |es| && Makes(After(es[..i]), es[i], s, f)
  }

  ghost function BreaksAt(es: seq<Event>, s: Serial, f: Fact): nat -> bool {
    (i: nat) => i < |es| && Breaks(After(es[..i]), es[i], s, f)
  }

  /** Some event of the run made it so, and no later one ended it. */
  ghost predicate MadeAndKept(es: seq<Event>, s: Serial, f: Fact) {
    exists i: nat :: Latch.SetAt(|es|, MakesAt(es, s, f), BreaksAt(es, s, f), i)
  }

  lemma SaysNext(es: seq<Event>, s: Serial, f: Fact, i: nat)
    requires i < |es| && Proper(f)
    ensures SaysAt(es, s, f)(i + 1) <==> MakesAt(es, s, f)(i) || (SaysAt(es, s, f)(i) && !BreaksAt(es, s, f)(i))
  {
    assert es[..i + 1][..i] == es[..i];
    var c, e := After(es[..i]), es[i];
    RestartsAreArmed(es[..i], s);
    AnyStep(c, e, s, f);
  }

  /** Over every run, and for every fact: the rows say so exactly if an event made it so and none since has ended it. */
  lemma FactIff(es: seq<Event>, s: Serial, f: Fact)
    requires Proper(f)
    ensures Says(After(es), s, f) <==> MadeAndKept(es, s, f)
  {
    var up, sets, clears := SaysAt(es, s, f), MakesAt(es, s, f), BreaksAt(es, s, f);
    forall i: nat {:trigger sets(i)} | i < |es| ensures up(i + 1) <==> sets(i) || (up(i) && !clears(i)) {
      SaysNext(es, s, f, i);
    }
    assert !up(0) by { assert es[..0] == []; }
    Latch.UpIffSet(|es|, up, sets, clears);
    assert es[..|es|] == es;
  }

  // ---- Sessions, sites and the catalogue ----

  datatype Note =
    | Offers(mac: string, image: string)
    | LinkedTo(mac: string, serial: Serial)
    | Settings(site: SiteId, settings: string)
    | Took(site: SiteId, second: nat)
    | Catalogued(id: string, entry: string)

  /** A session is that of a MAC, and offers or is linked to something. */
  predicate ProperNote(n: Note) {
    match n
    case Offers(_, image) => image != ""
    case LinkedTo(mac, s) => mac != "" && s != ""
    case _ => true
  }

  predicate Stands(c: Records, n: Note) {
    match n
    case Offers(mac, image) => mac in c.sessions && c.sessions[mac].image == image
    case LinkedTo(mac, s) => mac in c.sessions && c.sessions[mac].serial == s
    case Settings(site, settings) => site in c.sites && c.sites[site].settings == settings
    case Took(site, second) => site in c.sites && c.sites[site].desiredAt == Some(second)
    case Catalogued(id, entry) => id in c.catalogue && c.catalogue[id] == entry
  }

  /** A choice is kept only for a MAC that has been seen, and a site's document counts as taken when it is handed out.
      */
  predicate Writes(c: Records, e: Event, n: Note) {
    match n
    case Offers(mac, image) => e.ChooseImage? && e.mac == mac && e.image == image && mac in c.sessions
    case LinkedTo(mac, s) => e.AskJob? && e.serial == s && e.mac == mac && mac in c.sessions
    case Settings(site, settings) => e == EditSite(site, settings)
    case Took(site, second) => e == HandOut(site) && site in c.sites && 1000 * second <= c.clock < 1000 * second + 1000
    case Catalogued(id, entry) => e == EditCatalogue(id, Some(entry))
  }

  predicate Replaces(c: Records, e: Event, n: Note) {
    match n
    case Offers(mac, _) => Unlinks(c, e, mac) || (e.ChooseImage? && e.mac == mac)
    case LinkedTo(mac, _) => Unlinks(c, e, mac) || (e.AskJob? && e.mac == mac)
    case Settings(site, _) => e.EditSite? && e.siteId == site
    case Took(site, _) => e == HandOut(site)
    case Catalogued(id, _) => e.EditCatalogue? && e.id == id
  }

  /** A session goes with the blade it is linked to. */
  predicate Unlinks(c: Records, e: Event, mac: string) {
    e.Forget? && mac in c.sessions && c.sessions[mac].serial == e.serial && Deletes(c, e, e.serial)
  }

  ghost predicate NoteFollows(c: Records, e: Event, n: Note) {
    Stands(Step(c, e), n) <==> Writes(c, e, n) || (Stands(c, n) && !Replaces(c, e, n))
  }

  lemma OfferStep(c: Records, e: Event, n: Note)
    requires n.Offers? && ProperNote(n) && !RowEvent(e)
    ensures NoteFollows(c, e, n)
  {
  }

  lemma LinkStep(c: Records, e: Event, n: Note)
    requires n.LinkedTo? && ProperNote(n) && !RowEvent(e)
    ensures NoteFollows(c, e, n)
  {
  }

  lemma SiteStep(c: Records, e: Event, n: Note)
    requires (n.Settings? || n.Took?) && !RowEvent(e)
    ensures NoteFollows(c, e, n)
  {
  }

  lemma CatalogueStep(c: Records, e: Event, n: Note)
    requires n.Catalogued? && !RowEvent(e)
    ensures NoteFollows(c, e, n)
  {
  }

  /** The events of one row write and replace nothing here. */
  lemma RowEventNotes(c: Records, e: Event, n: Note)
    requires RowEvent(e)
    ensures !Writes(c, e, n) && !Replaces(c, e, n)
  {
  }

  lemma RowsAside(c: Records, d: Records, n: Note)
    requires d.sessions == c.sessions && d.sites == c.sites && d.catalogue == c.catalogue
    ensures Stands(d, n) <==> Stands(c, n)
  {
  }

  lemma NoteStep(c: Records, e: Event, n: Note)
    requires ProperNote(n)
    ensures NoteFollows(c, e, n)
  {
    if RowEvent(e) {
      RowEventIs(c, e);
      RowEventNotes(c, e, n);
      RowsAside(c, Step(c, e), n);
    } else {
      match n
      case Offers(_, _) => OfferStep(c, e, n);
      case LinkedTo(_, _) => LinkStep(c, e, n);
      case Catalogued(_, _) => CatalogueStep(c, e, n);
      case _ => SiteStep(c, e, n);
    }
  }

  ghost function StandsAtEvent(es: seq<Event>, n: Note): nat -> bool {
    (i: nat) => i <= |es| && Stands(After(es[..i]), n)
  }

  ghost function WritesAt(es: seq<Event>, n: Note): nat -> bool {
    (i: nat) => i < |es| && Writes(After(es[..i]), es[i], n)
  }

  ghost function ReplacesAt(es: seq<Event>, n: Note): nat -> bool {
    (i: nat) => i < |es| && Replaces(After(es[..i]), es[i], n)
  }

  ghost predicate WrittenAndKept(es: seq<Event>, n: Note) {
    exists i: nat :: Latch.SetAt(|es|, WritesAt(es, n), ReplacesAt(es, n), i)
  }

  lemma StandsNext(es: seq<Event>, n: Note, i: nat)
    requires i < |es| && ProperNote(n)
    ensures StandsAtEvent(es, n)(i + 1) <==> WritesAt(es, n)(i) || (StandsAtEvent(es, n)(i) && !ReplacesAt(es, n)(i))
  {
    assert es[..i + 1][..i] == es[..i];
    NoteStep(After(es[..i]), es[i], n);
  }

  /** Over every run: a session offers an image, is linked to a blade, a site has its settings and its last document,
      and the catalogue an entry, exactly if an event wrote that and none since has replaced it. */
  lemma NoteIff(es: seq<Event>, n: Note)
    requires ProperNote(n)
    ensures Stands(After(es), n) <==> WrittenAndKept(es, n)
  {
    var up, sets, clears := StandsAtEvent(es, n), WritesAt(es, n), ReplacesAt(es, n);
    forall i: nat {:trigger sets(i)} | i < |es| ensures up(i + 1) <==> sets(i) || (up(i) && !clears(i)) {
      StandsNext(es, n, i);
    }
    assert !up(0) by { assert es[..0] == []; }
    Latch.UpIffSet(|es|, up, sets, clears);
    assert es[..|es|] == es;
  }
}
