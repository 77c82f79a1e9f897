/** Saying something when a blade goes bad (server/notify.go healthPass and sendAlert). Mail is an outcome of the
    environment. A level counts as announced once the row is marked; the log has a line for every attempt. */
module Alerts {
  import opened Wrappers
  import Latch

  datatype Level = Warn | Crit

  datatype Verdict = Well | Bad(level: Level) | Unknown

  /** One row of the alerts table; `since` is stored in whole seconds. */
  datatype Alert = Alert(level: Level, since: nat, notified: Option<Level>)

  datatype Conf = Conf(enabled: bool, ready: bool, critOnly: bool, holdMin: nat)

  const TICKS: nat := 1000

  function Stamp(clock: nat): nat {
    clock / TICKS
  }

  function Hold(conf: Conf): nat {
    conf.holdMin * 60 * TICKS
  }

  function Rank(l: Option<Level>): nat {
    match l case None => 0 case Some(Warn) => 1 case Some(Crit) => 2
  }

  /** worse: a level outranks what was said, saying nothing being least. */
  predicate Worse(l: Level, said: Option<Level>) {
    Rank(Some(l)) > Rank(said)
  }

  predicate WorthSending(l: Level, conf: Conf) {
    l == Crit || !conf.critOnly
  }

  // ---- One blade ----

  /** What one turn of the watch brings for one blade: a verdict, or the end of its alert because the blade is
      gone from the inventory, was shut down or was reset. */
  datatype Turn =
    | Judged(verdict: Verdict, clock: nat, conf: Conf, mailOk: bool)
    | Gone

  /** The level has stood for the hold time and has not been said. */
  predicate Due(cur: Option<Alert>, t: Turn) {
    && t.Judged? && t.verdict.Bad? && cur.Some?
    && cur.value.level == t.verdict.level
    && cur.value.notified != Some(t.verdict.level)
    && t.clock >= cur.value.since * TICKS + Hold(t.conf)
  }

  /** sendAlert got as far as marking: no mail was called for, or it went out. */
  predicate Marks(cur: Option<Alert>, t: Turn) {
    Due(cur, t) &&
    (!(t.conf.enabled && t.conf.ready && WorthSending(t.verdict.level, t.conf)) || t.mailOk)
  }

  /** The verdict is good again and something had been said. */
  predicate Recovers(cur: Option<Alert>, t: Turn) {
    t.Judged? && t.verdict.Well? && cur.Some? && cur.value.notified.Some?
  }

  /** It got worse than what had been said. */
  predicate Escalates(cur: Option<Alert>, t: Turn) {
    && t.Judged? && t.verdict.Bad? && cur.Some?
    && cur.value.level != t.verdict.level && Worse(t.verdict.level, cur.value.notified)
  }

  /** The row after the turn. */
  function Next(cur: Option<Alert>, t: Turn): Option<Alert> {
    match t
    case Gone => None
    case Judged(verdict, clock, conf, _) =>
      match verdict
      case Unknown => cur
      case Well => None
      case Bad(l) =>
        if cur.None? then Some(Alert(l, Stamp(clock), None))
        else if cur.value.level != l then
          Some(Alert(l, Stamp(clock), if Worse(l, cur.value.notified) then None else cur.value.notified))
        else if Marks(cur, t) then Some(cur.value.(notified := Some(l)))
        else cur
  }

  function After(ts: seq<Turn>): Option<Alert> {
    if ts == [] then None else Next(After(ts[..|ts| - 1]), ts[|ts| - 1])
  }

  lemma AfterNext(ts: seq<Turn>, i: nat)
    requires i < |ts|
    ensures After(ts[..i + 1]) == Next(After(ts[..i]), ts[i])
  {
    assert ts[..i + 1][..i] == ts[..i];
  }

  // ---- An announcement follows a held stretch ----

  /** Judged at this level, or not judged for want of values. */
  predicate Same(t: Turn, l: Level) {
    t.Judged? && (t.verdict == Bad(l) || t.verdict == Unknown)
  }

  /** An unbroken stretch of the level from turn i to the end of the run. */
  predicate Stretch(ts: seq<Turn>, i: nat, l: Level) {
    i < |ts| && ts[i].Judged? && ts[i].verdict == Bad(l) && forall k :: i <= k < |ts| ==> Same(ts[k], l)
  }

  /** The row of an open alert dates from the first turn of the stretch it is in. */
  lemma {:induction false} RowDatesFromStretch(ts: seq<Turn>) returns (i: nat)
    requires After(ts).Some?
    ensures Stretch(ts, i, After(ts).value.level)
    ensures After(ts).value.since == Stamp(ts[i].clock)
  {
    var n := |ts| - 1;
    var before, t := After(ts[..n]), ts[n];
    if before.Some? && Same(t, before.value.level) {
      i := RowDatesFromStretch(ts[..n]);
      assert forall k :: i <= k < n ==> Same(ts[..n][k], before.value.level);
    } else {
      i := n;
    }
  }

  /** A level is marked as said only after an unbroken stretch of it, as long as the hold time, counted
      from the whole second in which the stretch began. */
  lemma AnnouncedOnlyAfterHold(ts: seq<Turn>, n: nat) returns (i: nat)
    requires n < |ts| && Marks(After(ts[..n]), ts[n])
    ensures i < n && Stretch(ts[..n + 1], i, ts[n].verdict.level)
    ensures ts[n].clock >= Stamp(ts[i].clock) * TICKS + Hold(ts[n].conf)
    ensures ts[n].clock + TICKS > ts[i].clock + Hold(ts[n].conf)
  {
    i := RowDatesFromStretch(ts[..n]);
    var us := ts[..n + 1];
    forall k | i <= k < |us| ensures Same(us[k], ts[n].verdict.level) {
      if k < n { assert ts[..n][k] == us[k]; }
    }
  }

  // ---- Once per stretch ----

  /** Once said, and as long as the stretch lasts, the row keeps the mark. */
  lemma {:induction false} MarkLasts(ts: seq<Turn>, m: nat, n: nat, l: Level)
    requires m < n <= |ts| && Marks(After(ts[..m]), ts[m]) && ts[m].verdict == Bad(l)
    requires forall k :: m < k < n ==> Same(ts[k], l)
    ensures After(ts[..n]).Some? && After(ts[..n]).value.level == l && After(ts[..n]).value.notified == Some(l)
    decreases n
  {
    if n == m + 1 {
      AfterNext(ts, m);
    } else {
      MarkLasts(ts, m, n - 1, l);
      AfterNext(ts, n - 1);
    }
  }

  /** Between two turns that mark one level the stretch was broken. */
  lemma MarkedOncePerStretch(ts: seq<Turn>, m: nat, n: nat)
    requires m < n < |ts| && Marks(After(ts[..m]), ts[m]) && Marks(After(ts[..n]), ts[n])
    requires ts[m].verdict == ts[n].verdict
    ensures exists k :: m < k < n && !Same(ts[k], ts[n].verdict.level)
  {
    var l := ts[n].verdict.level;
    if forall k :: m < k < n ==> Same(ts[k], l) {
      MarkLasts(ts, m, n, l);
    }
  }

  // ---- Attempts ----

  /** As long as nothing marks, the row stays as it was. */
  lemma {:induction false} UnmarkedRowStays(ts: seq<Turn>, m: nat, n: nat, l: Level)
    requires m < |ts| && m <= n <= |ts| && Due(After(ts[..m]), ts[m]) && ts[m].verdict == Bad(l)
    requires forall k :: m <= k < n ==> Same(ts[k], l) && !Marks(After(ts[..k]), ts[k])
    ensures After(ts[..n]) == After(ts[..m])
    decreases n
  {
    if m < n {
      UnmarkedRowStays(ts, m, n - 1, l);
      AfterNext(ts, n - 1);
    }
  }

  /** A stretch in which the level is due at turn m and judged again at turn n, later and with the same hold time. */
  ghost predicate SameStretch(ts: seq<Turn>, m: nat, n: nat) {
    && m < n < |ts| && Due(After(ts[..m]), ts[m]) && ts[n].Judged? && ts[n].verdict == ts[m].verdict
    && (forall k :: m <= k <= n ==> Same(ts[k], ts[m].verdict.level))
    && ts[m].clock <= ts[n].clock && Hold(ts[n].conf) == Hold(ts[m].conf)
  }

  /** Within such a stretch there is another attempt, and another line in the log, exactly if none before it marked. */
  lemma AttemptedAgainIff(ts: seq<Turn>, m: nat, n: nat)
    requires SameStretch(ts, m, n)
    ensures Due(After(ts[..n]), ts[n]) <==> forall k :: m <= k < n ==> !Marks(After(ts[..k]), ts[k])
  {
    var l := ts[m].verdict.level;
    if forall k :: m <= k < n ==> !Marks(After(ts[..k]), ts[k]) {
      UnmarkedRowStays(ts, m, n, l);
    } else {
      var k :| m <= k < n && Marks(After(ts[..k]), ts[k]);
      MarkLasts(ts, k, n, l);
    }
  }

  /** While the mail fails, every pass of one stretch writes the alert to the log again. */
  lemma FailingMailRepeatsTheLog(conf: Conf) returns (ts: seq<Turn>)
    requires conf.enabled && conf.ready && !conf.critOnly && conf.holdMin == 0
    ensures |ts| == 3 && SameStretch(ts, 1, 2)
    ensures SaidOf("a", After(ts[..1]), ts[1]) == SaidOf("a", After(ts[..2]), ts[2]) == [Announced("a", Warn)]
  {
    var t := Judged(Bad(Warn), 0, conf, false);
    ts := [t, t, t];
    assert ts[..0] == [] && ts[..1] == [t] && ts[..2] == [t, t] && [t][..0] == [] && [t, t][..1] == [t];
    assert After([t]) == Some(Alert(Warn, 0, None));
    assert !Marks(After([t]), t);
    assert After([t, t]) == After([t]);
  }

  // ---- When exactly ----

  /** Which attempts mark: all, unless a mail is due and fails; and a mail is due when mail is set up, except for a
      warning where only critical alerts are to be mailed. */
  lemma MarksIff(cur: Option<Alert>, t: Turn)
    requires Due(cur, t)
    ensures Marks(cur, t) <==>
            || !t.conf.enabled || !t.conf.ready
            || (t.verdict == Bad(Warn) && t.conf.critOnly)
            || t.mailOk
  {
  }

  /** Over every run: where mail is set up, a critical level is marked only by a mail that went out, whatever is to be
      mailed; a warning that is not to be mailed is marked at once, whatever the mail does; and any other level exactly
      if its mail went out. An attempt that does not mark leaves the row, and so the level due, for the next pass. */
  lemma MarkedByMailIff(ts: seq<Turn>, n: nat)
    requires n < |ts| && Due(After(ts[..n]), ts[n]) && ts[n].conf.enabled && ts[n].conf.ready
    ensures var l := ts[n].verdict.level;
            && (l == Crit ==> (Marks(After(ts[..n]), ts[n]) <==> ts[n].mailOk))
            && (l == Warn && ts[n].conf.critOnly ==> Marks(After(ts[..n]), ts[n]))
            && (l == Warn && !ts[n].conf.critOnly ==> (Marks(After(ts[..n]), ts[n]) <==> ts[n].mailOk))
            && After(ts[..n + 1]).Some? && After(ts[..n + 1]).value.level == l
            && (if Marks(After(ts[..n]), ts[n]) then After(ts[..n + 1]).value.notified == Some(l)
                else After(ts[..n + 1]) == After(ts[..n]))
  {
    AfterNext(ts, n);
  }

  /** Getting worse than what was said: anything, if nothing was, and critical after a warning. */
  lemma WorseMeans(l: Level, said: Option<Level>)
    ensures Worse(l, said) <==> said == None || (l == Crit && said == Some(Warn))
  {
  }

  lemma {:induction false} StretchOpensRow(ts: seq<Turn>, i: nat, l: Level)
    requires Stretch(ts, i, l)
    ensures After(ts).Some? && After(ts).value.level == l
  {
    var n := |ts| - 1;
    if i < n {
      assert forall k :: i <= k < n ==> Same(ts[..n][k], l);
      StretchOpensRow(ts[..n], i, l);
    }
  }

  /** The first turn of the unbroken stretch the run ends in. */
  ghost predicate StretchFrom(ts: seq<Turn>, i: nat, l: Level) {
    Stretch(ts, i, l) && forall j: nat :: j < i ==> !Stretch(ts, j, l)
  }

  /** The row of an open alert dates from the very first turn of its stretch. */
  lemma {:induction false} RowDatesFromItsStart(ts: seq<Turn>) returns (i: nat)
    requires After(ts).Some?
    ensures StretchFrom(ts, i, After(ts).value.level) && After(ts).value.since == Stamp(ts[i].clock)
  {
    var n := |ts| - 1;
    var before, t := After(ts[..n]), ts[n];
    var l := After(ts).value.level;
    if before.Some? && Same(t, before.value.level) {
      i := RowDatesFromItsStart(ts[..n]);
      assert forall k :: i <= k < n ==> Same(ts[..n][k], l);
      forall j: nat | j < i ensures !Stretch(ts, j, l) {
        if Stretch(ts, j, l) { StretchShortened(ts, j, l); }
      }
    } else {
      i := n;
      forall j: nat | j < i ensures !Stretch(ts, j, l) {
        if Stretch(ts, j, l) {
          StretchShortened(ts, j, l);
          StretchOpensRow(ts[..n], j, l);
        }
      }
    }
  }

  lemma StretchShortened(ts: seq<Turn>, j: nat, l: Level)
    requires Stretch(ts, j, l) && j < |ts| - 1
    ensures Stretch(ts[..|ts| - 1], j, l)
  {
  }

  // ---- What was said last ----

  ghost function SaysAt(ts: seq<Turn>, l: Level): nat -> bool {
    (i: nat) => i < |ts| && Marks(After(ts[..i]), ts[i]) && ts[i].verdict == Bad(l)
  }

  /** Forgotten, or another level said instead. */
  ghost function UnsaysAt(ts: seq<Turn>, l: Level): nat -> bool {
    (i: nat) => i < |ts| &&
      (ts[i].Gone? || ts[i].verdict.Well? || Escalates(After(ts[..i]), ts[i])
       || (Marks(After(ts[..i]), ts[i]) && ts[i].verdict != Bad(l)))
  }

  ghost function LastSaidAt(ts: seq<Turn>, l: Level): nat -> bool {
    (i: nat) => i <= |ts| && After(ts[..i]).Some? && After(ts[..i]).value.notified == Some(l)
  }

  /** The level was marked, and since then neither forgotten nor another one marked. */
  ghost predicate LastSaid(ts: seq<Turn>, l: Level) {
    exists i: nat :: Latch.SetAt(|ts|, SaysAt(ts, l), UnsaysAt(ts, l), i)
  }

  lemma LastSaidNext(ts: seq<Turn>, l: Level, i: nat)
    requires i < |ts|
    ensures LastSaidAt(ts, l)(i + 1) <==> SaysAt(ts, l)(i) || (LastSaidAt(ts, l)(i) && !UnsaysAt(ts, l)(i))
  {
    AfterNext(ts, i);
  }

  lemma LastSaidIff(ts: seq<Turn>, l: Level)
    ensures (After(ts).Some? && After(ts).value.notified == Some(l)) <==> LastSaid(ts, l)
  {
    var up, sets, clears := LastSaidAt(ts, l), SaysAt(ts, l), UnsaysAt(ts, l);
    forall i: nat {:trigger sets(i)} | i < |ts| ensures up(i + 1) <==> sets(i) || (up(i) && !clears(i)) {
      LastSaidNext(ts, l, i);
    }
    assert !up(0) by { assert ts[..0] == []; }
    Latch.UpIffSet(|ts|, up, sets, clears);
    assert ts[..|ts|] == ts;
  }

  /** Exactly when a level is due, over every run: it was judged already at the pass before, or not judged since, in an
      unbroken stretch; the stretch has lasted the hold time, counted in minutes from the whole second of its first
      turn; and the level is not what was said last. */
  lemma DueIff(ts: seq<Turn>, t: Turn, l: Level)
    requires t.Judged? && t.verdict == Bad(l)
    ensures Due(After(ts), t) <==>
            && !LastSaid(ts, l)
            && exists i: nat ::
                 StretchFrom(ts, i, l) && t.clock >= ts[i].clock / 1000 * 1000 + t.conf.holdMin * 60_000
  {
    LastSaidIff(ts, l);
    if After(ts).Some? && After(ts).value.level == l {
      var i := RowDatesFromItsStart(ts);
      assert StretchFrom(ts, i, l) && After(ts).value.since * TICKS == ts[i].clock / 1000 * 1000;
      assert forall j: nat :: StretchFrom(ts, j, l) ==> j == i;
      assert Due(After(ts), t) <==>
             !LastSaid(ts, l) && t.clock >= ts[i].clock / 1000 * 1000 + t.conf.holdMin * 60_000;
    } else {
      forall i: nat ensures !StretchFrom(ts, i, l) {
        if Stretch(ts, i, l) { StretchOpensRow(ts, i, l); }
      }
    }
  }

  // ---- Recoveries ----

  ghost function SaidAt(ts: seq<Turn>): nat -> bool {
    (i: nat) => i <= |ts| && After(ts[..i]).Some? && After(ts[..i]).value.notified.Some?
  }

  ghost function MarksAt(ts: seq<Turn>): nat -> bool {
    (i: nat) => i < |ts| && Marks(After(ts[..i]), ts[i])
  }

  /** What makes the watch forget that it said something: the alert ends, or gets worse than what was said. */
  ghost function ForgetsAt(ts: seq<Turn>): nat -> bool {
    (i: nat) => i < |ts| &&
      (ts[i].Gone? || ts[i].verdict.Well? || Escalates(After(ts[..i]), ts[i]))
  }

  /** Something was said, and since then the alert has neither ended nor escalated. */
  ghost predicate StillSaid(ts: seq<Turn>) {
    exists i: nat :: Latch.SetAt(|ts|, MarksAt(ts), ForgetsAt(ts), i)
  }

  lemma SaidNext(ts: seq<Turn>, i: nat)
    requires i < |ts|
    ensures SaidAt(ts)(i + 1) <==> MarksAt(ts)(i) || (SaidAt(ts)(i) && !ForgetsAt(ts)(i))
  {
    AfterNext(ts, i);
  }

  /** A recovery is said exactly when the verdict is good again and an announcement still stands: one made
      since the alert was opened, with no escalation after it. */
  lemma RecoverySaidIff(ts: seq<Turn>, t: Turn)
    ensures Recovers(After(ts), t) <==> t.Judged? && t.verdict.Well? && StillSaid(ts)
  {
    forall i: nat {:trigger MarksAt(ts)(i)} | i < |ts|
      ensures SaidAt(ts)(i + 1) <==> MarksAt(ts)(i) || (SaidAt(ts)(i) && !ForgetsAt(ts)(i)) {
      SaidNext(ts, i);
    }
    assert !SaidAt(ts)(0) by { assert ts[..0] == []; }
    Latch.UpIffSet(|ts|, SaidAt(ts), MarksAt(ts), ForgetsAt(ts));
    assert ts[..|ts|] == ts;
  }

  /** A warning that was said, then a worse verdict, then all is well: nobody is told. */
  lemma EscalationLosesTheRecovery(conf: Conf) returns (ts: seq<Turn>, well: Turn)
    requires !conf.enabled && conf.holdMin == 10
    ensures |ts| == 3 && Marks(After(ts[..1]), ts[1]) && well.Judged? && well.verdict == Well
    ensures !Recovers(After(ts), well)
  {
    var a, b, c := Judged(Bad(Warn), 0, conf, true), Judged(Bad(Warn), 600000, conf, true),
        Judged(Bad(Crit), 660000, conf, true);
    ts, well := [a, b, c], Judged(Well, 720000, conf, true);
    assert ts[..1] == [a] && ts[..2] == [a, b];
    assert [a][..0] == [] && [a, b][..1] == [a];
    assert After([a]) == Some(Alert(Warn, 0, None));
    assert After([a, b]) == Some(Alert(Warn, 0, Some(Warn)));
    assert After(ts) == Some(Alert(Crit, 660, None));
  }

  // ---- All blades ----

  datatype Said = Announced(serial: string, level: Level) | Recovered(serial: string)

  function Row(alerts: map<string, Alert>, s: string): Option<Alert> {
    if s in alerts then Some(alerts[s]) else None
  }

  /** What the log gains from one blade. A failed mail is logged all the same. */
  function SaidOf(s: string, cur: Option<Alert>, t: Turn): seq<Said> {
    if Due(cur, t) then [Announced(s, t.verdict.level)]
    else if Recovers(cur, t) then [Recovered(s)]
    else []
  }

  function SaidOfAll(alerts: map<string, Alert>, blades: seq<string>, turn: string -> Turn): seq<Said> {
    if blades == [] then []
    else
      var n := |blades| - 1;
      SaidOfAll(alerts, blades[..n], turn) + SaidOf(blades[n], Row(alerts, blades[n]), turn(blades[n]))
  }

  /** What the log gains in a pass: a recovery for each blade that is well and of which something had been said, and a
      level for each that has stood in it for the hold time without its being said, mail or no mail; nothing else. */
  lemma {:induction false} SaidIff(alerts: map<string, Alert>, blades: seq<string>, turn: string -> Turn, x: Said)
    ensures x in SaidOfAll(alerts, blades, turn) <==>
            x.serial in blades && x.serial in alerts && SaysOf(alerts[x.serial], turn(x.serial), x)
  {
    if blades != [] {
      var n := |blades| - 1;
      SaidIff(alerts, blades[..n], turn, x);
      assert x.serial in blades <==> x.serial in blades[..n] || x.serial == blades[n];
    }
  }

  /** The open row and the turn call for this line. */
  predicate SaysOf(row: Alert, t: Turn, x: Said) {
    && t.Judged?
    && match x
       case Recovered(_) => t.verdict == Well && row.notified != None
       case Announced(_, l) =>
         && t.verdict == Bad(l) && row.level == l && row.notified != Some(l)
         && t.clock >= 1000 * row.since + 60_000 * t.conf.holdMin
  }

  class Watch {
    var alerts: map<string, Alert>
    var log: seq<Said>

    constructor ()
      ensures alerts == map[] && log == []
    {
      alerts, log := map[], [];
    }

    /** sendAlert for a level that is due. */
    method SendAlert(s: string, t: Turn, cur: Alert)
      requires t.Judged? && t.verdict.Bad?
      modifies this
      ensures log == old(log) + [Announced(s, t.verdict.level)]
      ensures var mail := t.conf.enabled && t.conf.ready && (t.verdict.level == Crit || !t.conf.critOnly);
              alerts == if mail && !t.mailOk then old(alerts)
                        else old(alerts)[s := cur.(level := t.verdict.level, notified := Some(t.verdict.level))]
    {
      log := log + [Announced(s, t.verdict.level)];
      if t.conf.enabled && t.conf.ready && WorthSending(t.verdict.level, t.conf) {
        if !t.mailOk {
          return;
        }
      }
      alerts := alerts[s := cur.(level := t.verdict.level, notified := Some(t.verdict.level))];
    }

    /** One blade of a pass. */
    method Judge(s: string, t: Turn)
      requires t.Judged?
      modifies this
      ensures log == old(log) + SaidOf(s, Row(old(alerts), s), t)
      ensures Row(alerts, s) == Next(Row(old(alerts), s), t)
      ensures forall u :: u != s ==> Row(alerts, u) == Row(old(alerts), u)
    {
      var had := s in alerts;
      match t.verdict {
        case Unknown =>
        case Well =>
          if had {
            if alerts[s].notified.Some? {
              log := log + [Recovered(s)];
            }
            alerts := alerts - {s};
          }
        case Bad(l) =>
          if !had {
            alerts := alerts[s := Alert(l, Stamp(t.clock), None)];
          } else if alerts[s].level != l {
            var cur := alerts[s];
            var said := cur.notified;
            if Worse(l, said) {
              said := None;
            }
            alerts := alerts[s := Alert(l, Stamp(t.clock), said)];
          } else {
            var cur := alerts[s];
            if cur.notified != Some(l) && t.clock >= cur.since * TICKS + Hold(t.conf) {
              SendAlert(s, t, cur);
            }
          }
      }
    }

    /** One turn of the loop: the blade is struck from the open alerts and judged. */
    method JudgeNext(ghost before: map<string, Alert>, blades: seq<string>, i: nat, turn: string -> Turn,
                     open: set<string>)
      returns (rest: set<string>)
      requires i < |blades| && forall j, k :: 0 <= j < k < |blades| ==> blades[j] != blades[k]
      requires turn(blades[i]).Judged?
      requires Progress(before, alerts, blades, i, turn) && StillOpen(before, blades, i, open)
      modifies this
      ensures Progress(before, alerts, blades, i + 1, turn) && StillOpen(before, blades, i + 1, rest)
      ensures log == old(log) + SaidOf(blades[i], Row(before, blades[i]), turn(blades[i]))
    {
      var s := blades[i];
      TakeOneMore(blades, i);
      assert Row(alerts, s) == Row(before, s);
      rest := open - {s};
      Judge(s, turn(s));
      ProgressNext(before, old(alerts), alerts, blades, i, turn);
    }

    /** healthPass: every blade of the inventory takes its turn, and whatever alert is left over belongs to a
        blade that no longer exists and goes. */
    method HealthPass(blades: seq<string>, turn: string -> Turn)
      requires forall i, j :: 0 <= i < j < |blades| ==> blades[i] != blades[j]
      requires forall s :: turn(s).Judged?
      modifies this
      ensures forall s :: Row(alerts, s) == Next(Row(old(alerts), s), if s in blades then turn(s) else Gone)
      ensures forall s :: s in alerts ==> s in blades
      ensures log == old(log) + SaidOfAll(old(alerts), blades, turn)
    {
      ghost var before := alerts;
      var open := alerts.Keys;
      assert blades[..0] == [];
      ghost var said: seq<Said> := [];
      var i := 0;
      while i < |blades|
        invariant 0 <= i <= |blades|
        invariant StillOpen(before, blades, i, open)
        invariant Progress(before, alerts, blades, i, turn)
        invariant log == old(log) + said && said == SaidOfAll(before, blades[..i], turn)
      {
        open := JudgeNext(before, blades, i, turn, open);
        SaidNextOfAll(before, blades, i, turn);
        ghost var more := SaidOf(blades[i], Row(before, blades[i]), turn(blades[i]));
        LogGrows(old(log), said, more);
        said := said + more;
        i := i + 1;
      }
      assert blades[..|blades|] == blades;
      LeftoversGo(before, alerts, blades, open, turn);
      alerts := alerts - open;
    }
  }

  lemma LogGrows(log: seq<Said>, said: seq<Said>, more: seq<Said>)
    ensures log + said + more == log + (said + more)
  {
  }

  lemma SaidNextOfAll(alerts: map<string, Alert>, blades: seq<string>, i: nat, turn: string -> Turn)
    requires i < |blades|
    ensures SaidOfAll(alerts, blades[..i + 1], turn) ==
            SaidOfAll(alerts, blades[..i], turn) + SaidOf(blades[i], Row(alerts, blades[i]), turn(blades[i]))
  {
    assert blades[..i + 1][..i] == blades[..i];
  }

  lemma LeftoversGo(before: map<string, Alert>, now: map<string, Alert>, blades: seq<string>, open: set<string>,
                    turn: string -> Turn)
    requires Progress(before, now, blades, |blades|, turn) && blades[..|blades|] == blades
    requires StillOpen(before, blades, |blades|, open)
    ensures forall s :: Row(now - open, s) == Next(Row(before, s), if s in blades then turn(s) else Gone)
    ensures forall s :: s in now - open ==> s in blades
  {
    forall s ensures Row(now - open, s) == Next(Row(before, s), if s in blades then turn(s) else Gone) {
      assert Row(now, s) == if s in blades then Next(Row(before, s), turn(s)) else Row(before, s);
    }
    forall s | s in now - open ensures s in blades {
      assert Row(now, s) == if s in blades then Next(Row(before, s), turn(s)) else Row(before, s);
    }
  }

  /** The alerts of blades that have not had their turn. */
  ghost predicate StillOpen(before: map<string, Alert>, blades: seq<string>, i: nat, open: set<string>)
    requires i <= |blades|
  {
    forall s :: s in open <==> s in before && s !in blades[..i]
  }

  /** The rows when the first i blades have had their turn. */
  ghost predicate Progress(
    before: map<string, Alert>, now: map<string, Alert>, blades: seq<string>, i: nat, turn: string -> Turn)
    requires i <= |blades|
  {
    forall s :: Row(now, s) == if s in blades[..i] then Next(Row(before, s), turn(s)) else Row(before, s)
  }

  lemma ProgressNext(before: map<string, Alert>, now: map<string, Alert>, next: map<string, Alert>,
                     blades: seq<string>, i: nat, turn: string -> Turn)
    requires i < |blades| && forall j, k :: 0 <= j < k < |blades| ==> blades[j] != blades[k]
    requires Progress(before, now, blades, i, turn)
    requires Row(next, blades[i]) == Next(Row(now, blades[i]), turn(blades[i]))
    requires forall u :: u != blades[i] ==> Row(next, u) == Row(now, u)
    ensures Progress(before, next, blades, i + 1, turn)
  {
    TakeOneMore(blades, i);
  }

  /** The blades judged so far, and the next one, which is none of them. */
  lemma TakeOneMore(blades: seq<string>, i: nat)
    requires i < |blades|
    requires forall j, k :: 0 <= j < k < |blades| ==> blades[j] != blades[k]
    ensures blades[i] !in blades[..i] && blades[..i + 1][..i] == blades[..i]
    ensures forall s :: s in blades[..i + 1] <==> s in blades[..i] || s == blades[i]
  {
    assert blades[..i + 1] == blades[..i] + [blades[i]];
  }
}
