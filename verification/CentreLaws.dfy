/** What the operations of the centre mean for its rows, field by field and over whole runs (server/api.go,
    server/db.go, server/netboot.go). */
module CentreLaws {
  import opened Wrappers
  import opened Centre
  import Latch

  // ---- Asking for a job ----

  /** Asking changes one row, and of the sessions the serial number of its own. */
  lemma AskingLeavesTheRest(c: Records, s: Serial, mac: string, hardware: bool)
    ensures var d := Provision(c, s, mac, hardware).0;
            && d.clock == c.clock && d.sites == c.sites && d.sessions.Keys == c.sessions.Keys
            && (forall t :: t != s ==> (t in d.blades <==> t in c.blades))
            && (forall t :: t != s && t in c.blades ==> d.blades[t] == c.blades[t])
            && (forall x :: x in c.sessions ==>
                  && d.sessions[x].image == c.sessions[x].image
                  && d.sessions[x].serial == if x == mac && mac != "" then s else c.sessions[x].serial)
  {
    assert Greeted(c, s, mac, hardware).clock == c.clock;
  }

  /** In that row a MAC, like an image, is taken over only where there was none, and hardware reported answers a
      firmware reading. */
  lemma AskingMeans(c: Records, s: Serial, mac: string, hardware: bool)
    ensures var (d, answer) := Provision(c, s, mac, hardware);
            && s in d.blades && (s in c.blades ==> AskedRow(c.blades[s], d.blades[s], mac, hardware, answer))
            && (s !in c.blades ==> d.blades[s].at == None && d.blades[s].install == Idle && d.blades[s].mac == mac)
  {
  }

  /** The row of a known blade before and after it asked. */
  predicate AskedRow(b: Blade, r: Blade, mac: string, hardware: bool, answer: Answer) {
    && r.at == b.at && r.details == b.details && r.install == b.install
    && r.mac == (if b.mac != "" then b.mac else mac)
    && (if hardware then r.probe == None else r.probe == b.probe && r.probeSent == b.probeSent)
    && r.state == if answer.Go? || answer.EraseJob? then Provisioning else b.state
  }

  // ---- A blade in the hands of its installer ----

  predicate IsProvisioning(c: Records, s: Serial) {
    s in c.blades && c.blades[s].state == Provisioning
  }

  /** A job is handed out: "go" or "wipe". */
  predicate HandsOut(c: Records, e: Event, s: Serial) {
    e.AskJob? && e.serial == s &&
    var answer := Provision(c, s, e.mac, e.hardware).1; answer.Go? || answer.EraseJob?
  }

  /** The installer reports an end: an error, an erase or an install. */
  predicate Ends(e: Event, s: Serial) {
    e.Report? && e.serial == s && e.phase != PhaseProgress
  }

  ghost function ProvisioningAt(es: seq<Event>, s: Serial): nat -> bool {
    (i: nat) => i <= |es| && IsProvisioning(After(es[..i]), s)
  }

  ghost function HandsOutAt(es: seq<Event>, s: Serial): nat -> bool {
    (i: nat) => i < |es| && HandsOut(After(es[..i]), es[i], s)
  }

  ghost function EndsAt(es: seq<Event>, s: Serial): nat -> bool {
    (i: nat) => i < |es| && Ends(es[i], s)
  }

  lemma RowStaysInHand(c: Records, b: Blade, e: Event)
    requires RowEvent(e)
    ensures RowStep(c, b, e).state == Provisioning <==>
            b.state == Provisioning && !(e.Report? && e.phase != PhaseProgress)
  {
  }

  lemma RowProvisioningStep(c: Records, e: Event, s: Serial)
    requires RowEvent(e)
    ensures IsProvisioning(Step(c, e), s) <==> IsProvisioning(c, s) && !Ends(e, s)
  {
    if e.serial in c.blades {
      RowStaysInHand(c, c.blades[e.serial], e);
      var r := RowStep(c, c.blades[e.serial], e);
      assert Step(c, e) == WithBlade(c, e.serial, r);
    }
  }

  lemma OtherProvisioningStep(c: Records, e: Event, s: Serial)
    requires !RowEvent(e) && !e.AskJob?
    ensures IsProvisioning(Step(c, e), s) <==> IsProvisioning(c, s)
  {
  }

  lemma AskedProvisioningStep(c: Records, e: Event, s: Serial)
    requires e.AskJob?
    ensures IsProvisioning(Step(c, e), s) <==> HandsOut(c, e, s) || IsProvisioning(c, s)
  {
  }

  lemma ProvisioningNext(es: seq<Event>, s: Serial, i: nat)
    requires i < |es|
    ensures ProvisioningAt(es, s)(i + 1) <==> HandsOutAt(es, s)(i) || (ProvisioningAt(es, s)(i) && !EndsAt(es, s)(i))
  {
    assert es[..i + 1][..i] == es[..i];
    var c, e := After(es[..i]), es[i];
    if RowEvent(e) {
      RowProvisioningStep(c, e, s);
    } else if e.AskJob? {
      AskedProvisioningStep(c, e, s);
    } else {
      OtherProvisioningStep(c, e, s);
    }
  }

  /** A job was handed out at some event of the run and no later event ended it. */
  ghost predicate InHand(es: seq<Event>, s: Serial) {
    exists i: nat :: Latch.SetAt(|es|, HandsOutAt(es, s), EndsAt(es, s), i)
  }

  /** Over every run: a blade counts as being provisioned exactly from the answer that hands it a job until its
      installer reports an end. No heartbeat, silence, placement, reset, cancellation or deletion in between changes
      that. */
  lemma ProvisioningIff(es: seq<Event>, s: Serial)
    ensures IsProvisioning(After(es), s) <==> InHand(es, s)
  {
    var up, sets, clears := ProvisioningAt(es, s), HandsOutAt(es, s), EndsAt(es, s);
    forall i: nat {:trigger sets(i)} | i < |es| ensures up(i + 1) <==> sets(i) || (up(i) && !clears(i)) {
      ProvisioningNext(es, s, i);
    }
    assert !up(0) by { assert es[..0] == []; }
    Latch.UpIffSet(|es|, up, sets, clears);
    assert es[..|es|] == es;
  }

  // ---- Choosing, forgetting ----

  /** A choice in the netboot panel is for the blade its session is linked to; without a link for the blade found by
      that MAC; and never for another. */
  lemma ChoosingMeans(c: Records, mac: string, image: string, found: Option<Serial>, s: Serial)
    requires s in c.blades
    ensures var d := Step(c, ChooseImage(mac, image, found));
            var linked := mac in c.sessions && c.sessions[mac].serial != "";
            var chosen := if linked then c.sessions[mac].serial == s else found == Some(s) && c.blades[s].mac == mac;
            && s in d.blades
            && d.blades[s] == (if chosen then c.blades[s].(image := image, install := Pending) else c.blades[s])
            && (mac in c.sessions ==> mac in d.sessions && d.sessions[mac].image == image)
  {
  }

  /** A blade is forgotten exactly if it stands nowhere, has no job waiting or in hand and is not online; its sessions
      go with it, and nothing else. */
  lemma ForgettingIff(c: Records, s: Serial)
    requires s in c.blades
    ensures var d := Step(c, Forget(s));
            && (s !in d.blades <==>
                  && c.blades[s].at == None && Armed(c, s) == None
                  && c.blades[s].state != Provisioning && c.blades[s].state != Online)
            && (forall t :: t != s ==>
                (t in d.blades <==> t in c.blades) && (t in c.blades ==> d.blades[t] == c.blades[t]))
            && (s !in d.blades ==> forall x :: x in d.sessions <==> x in c.sessions && c.sessions[x].serial != s)
  {
  }

  // ---- Firmware readings in seconds ----

  /** A stamp is the whole second a moment lies in. */
  lemma StampIsTheSecond(clock: nat)
    ensures 1000 * Stamp(clock) <= clock < 1000 * Stamp(clock) + 1000
  {
  }

  /** What a sweep makes of an armed blade not yet restarted: after half an hour the arming is gone; else it is
      restarted if its site has taken a document in a later second than the arming's, or, where no site has ever taken
      one, after a minute; else it waits. */
  lemma SweptBladeIff(c: Records, b: Blade)
    requires b.probe.Some? && !b.probeSent
    ensures var r := ProbeStepped(c, b);
            var since := 1000 * b.probe.value;
            var fetched := b.at.Some? && b.at.value in c.sites && c.sites[b.at.value].desiredAt.Some?;
            var due :=
                if fetched then c.sites[b.at.value].desiredAt.value > b.probe.value else c.clock > since + 60_000;
            && (r.probe == None <==> c.clock >= since + 1_800_000)
            && (r.probe.Some? ==> r.probe == b.probe && (r.probeSent <==> due))
            && r.install == b.install && r.image == b.image && r.at == b.at && r.state == b.state
  {
  }

  /** So no armed blade waits for ever: half an hour after its arming it has been restarted or let go. */
  lemma NoReadingWaitsForEver(c: Records, b: Blade)
    requires b.probe.Some? && c.clock >= 1000 * b.probe.value + 1_800_000
    ensures var r := ProbeStepped(c, b); r.probe == None || r.probeSent
  {
  }
}
