/** The handlers as they run: statement by statement over the tables, each proved to be one event
    of the centre (server/db.go, server/api.go) or one pass of a site (site/site.go). */
module Handlers {
  import opened Wrappers
  import opened Centre
  import opened Rollout
  import opened Coherence

  class CentreDb {
    var rows: Records

    constructor ()
      ensures rows == EMPTY
    {
      rows := EMPTY;
    }

    /** UPDATE blades SET ... WHERE serial=?: nothing happens to a row that is not there. */
    method Update(s: Serial, b: Blade)
      requires s in rows.blades
      modifies this
      ensures rows == WithBlade(old(rows), s, b)
    {
      rows := rows.(blades := rows.blades[s := b]);
    }

    method RequestInstallOf(s: Serial, targetOk: bool) returns (ok: bool)
      modifies this
      ensures rows == Step(old(rows), RequestInstall(s, targetOk))
      ensures ok <==> Opens(old(rows), RequestInstall(s, targetOk), s, Install)
    {
      if s in rows.blades && !targetOk {
        return false;
      }
      if s !in rows.blades || rows.blades[s].image == "" {
        return false;
      }
      Update(s, rows.blades[s].(install := Pending));
      return true;
    }

    method CancelInstallOf(s: Serial) returns (ok: bool)
      modifies this
      ensures rows == Step(old(rows), CancelInstall(s))
      ensures ok <==> Armed(old(rows), s).Some?
      ensures Armed(rows, s) == None
    {
      if s !in rows.blades {
        return false;
      }
      var b := rows.blades[s];
      if b.install != Pending && b.install != Wipe {
        return false;
      }
      Update(s, b.(install := Idle));
      return true;
    }

    method RequestProbeOf(s: Serial) returns (ok: bool)
      modifies this
      ensures rows == Step(old(rows), RequestProbe(s))
      ensures ok <==> ArmsProbe(old(rows), RequestProbe(s))
    {
      if s !in rows.blades || rows.blades[s].install == Pending || rows.blades[s].install == Wipe {
        return false;
      }
      Update(s, rows.blades[s].(probe := Some(Stamp(rows.clock))));
      Update(s, rows.blades[s].(probeSent := false));
      return true;
    }

    /** probeStep: one sweep over the armed blades that have not been restarted yet, in whatever order
        the query returns them. Every blade ends as if it had been looked at alone. */
    method ProbeSweep() returns (restarted: set<Serial>)
      modifies this
      ensures rows == old(rows).(blades := rows.blades)
      ensures rows.blades.Keys == old(rows.blades).Keys
      ensures forall s :: s in rows.blades ==> rows.blades[s] == ProbeStepped(old(rows), old(rows).blades[s])
      ensures forall s :: s in restarted <==> s in old(rows).blades && Restarted(old(rows), old(rows).blades[s])
    {
      ghost var before := rows;
      restarted := {};
      var todo := set s | s in rows.blades && Due(rows.blades[s]);
      while todo != {}
        invariant rows == before.(blades := rows.blades)
        invariant rows.blades.Keys == before.blades.Keys
        invariant forall s :: s in todo ==> s in before.blades && Due(before.blades[s])
        invariant forall s :: s in todo ==> rows.blades[s] == before.blades[s]
        invariant forall s :: s in before.blades && s !in todo ==>
                    rows.blades[s] == ProbeStepped(before, before.blades[s])
        invariant forall s :: s in restarted <==>
                  s in before.blades && s !in todo && Restarted(before, before.blades[s])
        decreases |todo|
      {
        var s :| s in todo;
        todo := todo - {s};
        var b := rows.blades[s];
        var verdict := ProbeDecision(rows, b);
        assert verdict == ProbeDecision(before, b);
        if verdict.Expired? {
          Update(s, ClearProbe(b));
        } else if verdict.Restart? {
          restarted := restarted + {s};
          Update(s, b.(probeSent := true));
        }
      }
    }

    /** hProvision up to its decision: enrol, answer a firmware reading, link the session. */
    method Greet(s: Serial, mac: string, hardware: bool)
      modifies this
      ensures rows == Greeted(old(rows), s, mac, hardware)
    {
      var b := if s in rows.blades then rows.blades[s] else NewBlade("");
      if hardware && b.probe.Some? {
        b := ClearProbe(b);
      }
      var linked := rows.sessions;
      if mac != "" {
        var img := "";
        if mac in rows.sessions {
          linked := rows.sessions[mac := rows.sessions[mac].(serial := s)];
          img := linked[mac].image;
        }
        if b.mac == "" {
          b := b.(mac := mac);
        }
        if img != "" && b.image == "" {
          b := b.(image := img);
        }
      }
      rows := rows.(sessions := linked, blades := rows.blades[s := b]);
    }

    /** hProvision: the answer given and the rows afterwards. */
    method ProvisionOf(s: Serial, mac: string, hardware: bool) returns (answer: Answer)
      modifies this
      ensures (rows, answer) == Provision(old(rows), s, mac, hardware)
    {
      Greet(s, mac, hardware);
      var b := rows.blades[s];
      if b.image == "" {
        return Waiting;
      }
      if b.install == Wipe {
        Update(s, b.(state := Provisioning));
        return EraseJob;
      }
      if b.install != Pending {
        return NoRequest;
      }
      if b.image !in rows.catalogue {
        return NotCatalogued;
      }
      Update(s, b.(state := Provisioning));
      return Go(b.image);
    }
  }

  /** An armed blade whose restart has not been queued yet. */
  predicate Due(b: Blade) {
    b.probe.Some? && !b.probeSent
  }

  predicate Restarted(c: Records, b: Blade) {
    Due(b) && ProbeDecision(c, b).Restart?
  }

  /** What comes back from the centre. */
  datatype Response = Unreachable | Refused | Garbled | NotModified | Body(doc: Doc)

  class SiteLoop {
    var held: Option<Doc>
    var etag: string
    var disk: Option<Doc>
    var online: bool

    constructor (file: Option<Doc>)
      ensures Memory() == SiteMem(None, "", file)
    {
      held, etag, disk, online := None, "", file, false;
    }

    ghost function Memory(): SiteMem
      reads this
    {
      SiteMem(held, etag, disk)
    }

    /** fetch: what it returns, and the version remembered when a whole document came. */
    method Fetch(response: Response) returns (ok: bool, doc: Option<Doc>, changed: bool)
      modifies this`etag
      ensures ok <==> response.NotModified? || response.Body?
      ensures response.NotModified? ==> doc == held && !changed
      ensures response.Body? ==> doc == Some(response.doc) && changed
      ensures etag == if response.Body? then response.doc.version else old(etag)
    {
      match response {
        case NotModified =>
          return true, held, false;
        case Body(d) =>
          etag := d.version;
          return true, Some(d), true;
        case _ =>
          return false, None, false;
      }
    }

    /** pass, up to the point where the document is handed to the rest of it. */
    method Pass(response: Response, saved: bool) returns (doc: Option<Doc>)
      modifies this
      ensures Memory() == match response
                case Body(d) => Stored(Tagged(old(Memory()), d.version), Some(d), true, saved)
                case NotModified => old(Memory())
                case _ => FallBack(old(Memory()))
      ensures doc == held
      ensures online <==> response.NotModified? || response.Body?
      ensures old(Coherent(Memory())) ==> Coherent(Memory())
      ensures old(Coherent(Memory())) && !(response.NotModified? && old(etag) == "") ==>
                (doc.None? <==> !online && old(held).None? && old(disk).None?)
    {
      var ok, d, changed := Fetch(response);
      if !ok {
        online := false;
        if held.None? {
          if disk.Some? {
            held := disk;
          } else {
            return None;
          }
        }
        return held;
      }
      online := true;
      held := d;
      if changed && saved {
        disk := d;
      }
      return d;
    }
  }
}
