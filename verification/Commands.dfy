/** Commands for a blade, as the centre queues them and hands them out (server/api.go). Instants are milliseconds; the
    table keeps whole seconds, as RFC 3339 text does. A poll selects its batch and marks it afterwards: two polls of
    one blade may overlap. */
module Commands {
  import opened Wrappers
  import Latch

  datatype Fate = Waiting | Replaced | Expired | Withdrawn | Taken

  /** A row; its id is its place in the table. */
  datatype Row = Row(serial: string, kind: string, asked: nat, fate: Fate)

  function Second(instant: int): int {
    instant / 1000
  }

  /** A hand-out: which row, and when it was selected. */
  datatype Hand = Hand(id: nat, at: nat)

  /** A poll that has selected these rows and has still to mark them. */
  datatype Batch = Batch(serial: string, ids: seq<nat>)

  datatype Table = Table(rows: seq<Row>, clock: nat, polls: seq<Batch>, handed: seq<Hand>)

  datatype Event =
    | Tick(ms: nat)
    | Ask(serial: string, kind: string, replacing: bool)
    | Withdraw(serial: string, only: Option<string>)
    | Select(serial: string, ttl: nat)
    | MarkAll(w: nat)

  function Mark(rows: seq<Row>, p: Row -> bool, fate: Fate): (r: seq<Row>)
    ensures |r| == |rows|
  {
    seq(|rows|, k requires 0 <= k < |rows| => if p(rows[k]) then rows[k].(fate := fate) else rows[k])
  }

  /** Marking by id looks at nothing else: a row that was replaced or withdrawn meanwhile is marked as well. */
  function MarkIds(rows: seq<Row>, ids: seq<nat>): (r: seq<Row>)
    ensures |r| == |rows|
  {
    seq(|rows|, k requires 0 <= k < |rows| => if k in ids then rows[k].(fate := Taken) else rows[k])
  }

  predicate Overdue(row: Row, serial: string, now: nat, ttl: nat) {
    row.serial == serial && row.fate.Waiting? && Second(row.asked) < Second(now - ttl)
  }

  predicate Due(row: Row, serial: string) {
    row.serial == serial && row.fate.Waiting?
  }

  /** The ids a poll selects, in order. */
  function DueIds(rows: seq<Row>, serial: string): seq<nat> {
    if rows == [] then []
    else
      var last := |rows| - 1;
      DueIds(rows[..last], serial) + if Due(rows[last], serial) then [last] else []
  }

  function Hands(ids: seq<nat>, at: nat): (h: seq<Hand>)
    ensures |h| == |ids|
  {
    seq(|ids|, k requires 0 <= k < |ids| => Hand(ids[k], at))
  }

  function Expire(rows: seq<Row>, serial: string, now: nat, ttl: nat): seq<Row> {
    Mark(rows, (row: Row) => Overdue(row, serial, now, ttl), Expired)
  }

  function Step(t: Table, e: Event): Table {
    match e
    case Tick(ms) => t.(clock := t.clock + ms)
    case Ask(serial, kind, replacing) =>
      var rows :=
          if replacing then Mark(t.rows, (row: Row) => Due(row, serial) && row.kind == kind, Replaced) else t.rows;
      t.(rows := rows + [Row(serial, kind, t.clock, Waiting)])
    case Withdraw(serial, only) =>
      t.(rows := Mark(t.rows, (row: Row) => Due(row, serial) && (only == None || only == Some(row.kind)), Withdrawn))
    case Select(serial, ttl) =>
      var rows := Expire(t.rows, serial, t.clock, ttl);
      var ids := DueIds(rows, serial);
      t.(rows := rows, polls := t.polls + [Batch(serial, ids)], handed := t.handed + Hands(ids, t.clock))
    case MarkAll(w) =>
      if w >= |t.polls| then t
      else t.(rows := MarkIds(t.rows, t.polls[w].ids), polls := t.polls[w := t.polls[w].(ids := [])])
  }

  function After(events: seq<Event>): Table {
    if events == [] then Table([], 0, [], []) else Step(After(events[..|events| - 1]), events[|events| - 1])
  }

  lemma {:induction false} DueIdsExact(rows: seq<Row>, serial: string)
    ensures forall id :: id in DueIds(rows, serial) <==> 0 <= id < |rows| && Due(rows[id], serial)
    ensures forall i, j :: 0 <= i < j < |DueIds(rows, serial)| ==> DueIds(rows, serial)[i] < DueIds(rows, serial)[j]
  {
    if rows != [] {
      var last := |rows| - 1;
      DueIdsExact(rows[..last], serial);
      var front := DueIds(rows[..last], serial);
      forall i | 0 <= i < |front| ensures front[i] < last { assert front[i] in front; }
    }
  }

  // ---- What one poll hands out ----

  /** Waiting, for this blade, and its second of creation not before the second of the cutoff. */
  predicate Living(t: Table, serial: string, ttl: nat, id: nat) {
    id < |t.rows| && Due(t.rows[id], serial) && Second(t.rows[id].asked) >= Second(t.clock - ttl)
  }

  predicate InHands(hands: seq<Hand>, id: nat) {
    exists i :: 0 <= i < |hands| && hands[i].id == id
  }

  /** A poll hands out exactly the living commands of the blade, so none older than the time to live by a whole second;
      the other waiting ones expire. */
  lemma SelectHandsOutTheLiving(t: Table, serial: string, ttl: nat, id: nat)
    ensures var u := Step(t, Select(serial, ttl));
            && t.handed <= u.handed && |u.polls| == |t.polls| + 1
            && (Living(t, serial, ttl, id) <==> id in u.polls[|t.polls|].ids)
            && (Living(t, serial, ttl, id) <==> InHands(u.handed[|t.handed|..], id))
            && (Living(t, serial, ttl, id) ==> t.clock - t.rows[id].asked < ttl + 1000)
            && (id < |t.rows| && Due(t.rows[id], serial) && !Living(t, serial, ttl, id) ==> u.rows[id].fate == Expired)
  {
    var rows := Expire(t.rows, serial, t.clock, ttl);
    var ids := DueIds(rows, serial);
    DueIdsExact(rows, serial);
    var u := Step(t, Select(serial, ttl));
    var hands := Hands(ids, t.clock);
    assert u.handed[|t.handed|..] == hands;
    assert id in ids <==> Living(t, serial, ttl, id);
    if id in ids {
      var k :| 0 <= k < |ids| && ids[k] == id;
      assert hands[k].id == id;
    }
    if InHands(hands, id) {
      var k :| 0 <= k < |hands| && hands[k].id == id;
      assert ids[k] in ids;
    }
  }

  /** The second is the unit: a command can leave the centre up to a second after its time to live. */
  lemma OutlivesItsTimeByLessThanASecond()
    ensures var t := After([Tick(999_000), Ask("b", "reboot", true), Tick(1999)]);
            |t.rows| == 1 && t.clock - t.rows[0].asked > 1000 && Living(t, "b", 1000, 0)
  {
    var a, b, c := Tick(999_000), Ask("b", "reboot", true), Tick(1999);
    assert [a, b, c][..2] == [a, b] && [a, b][..1] == [a] && [a][..0] == [];
    var t1 := Step(After([]), a);
    var t2 := Step(t1, b);
    assert After([a]) == t1 && After([a, b]) == t2;
    var t := After([a, b, c]);
    assert t == Step(t2, c);
    assert t.rows == [Row("b", "reboot", 999_000, Waiting)];
  }

  // ---- Every run ----

  /** The poll still holds the row to mark it. */
  predicate Held(t: Table, serial: string, id: nat) {
    exists w :: 0 <= w < |t.polls| && t.polls[w].serial == serial && id in t.polls[w].ids
  }

  /** A row a poll holds is one of its blade's, and was handed out. */
  ghost predicate HeldOk(t: Table, w: nat, id: nat) {
    w < |t.polls| && id in t.polls[w].ids ==>
      id < |t.rows| && t.rows[id].serial == t.polls[w].serial && InHands(t.handed, id)
  }

  /** What was handed out is a row; and one that still waits is held by a poll of its blade. */
  ghost predicate HandedOk(t: Table, id: nat) {
    InHands(t.handed, id) ==> id < |t.rows| && (t.rows[id].fate.Waiting? ==> Held(t, t.rows[id].serial, id))
  }

  ghost predicate Inv(t: Table) {
    (forall w: nat, id: nat :: HeldOk(t, w, id)) && (forall id: nat :: HandedOk(t, id))
  }

  /** Rows keep their identity, and a row that no longer waits never waits again. */
  ghost predicate Grows(s: seq<Row>, t: seq<Row>) {
    && |s| <= |t|
    && forall id :: 0 <= id < |s| ==>
         t[id].serial == s[id].serial && t[id].kind == s[id].kind && t[id].asked == s[id].asked &&
             (t[id].fate.Waiting? ==> s[id].fate.Waiting?)
  }

  lemma StepGrows(t: Table, e: Event)
    ensures Grows(t.rows, Step(t, e).rows)
  {
  }

  lemma InHandsMore(hands: seq<Hand>, more: seq<Hand>, id: nat)
    ensures InHands(hands + more, id) <==> InHands(hands, id) || InHands(more, id)
  {
    if InHands(hands, id) {
      var i :| 0 <= i < |hands| && hands[i].id == id;
      assert (hands + more)[i].id == id;
    }
    if InHands(more, id) {
      var i :| 0 <= i < |more| && more[i].id == id;
      assert (hands + more)[|hands| + i].id == id;
    }
    if i :| 0 <= i < |hands + more| && (hands + more)[i].id == id {
      if i < |hands| { assert hands[i].id == id; } else { assert more[i - |hands|].id == id; }
    }
  }

  lemma SelectKeepsInv(t: Table, serial: string, ttl: nat)
    requires Inv(t)
    ensures Inv(Step(t, Select(serial, ttl)))
  {
    var u := Step(t, Select(serial, ttl));
    var n := |t.polls|;
    StepGrows(t, Select(serial, ttl));
    forall w: nat, id: nat ensures HeldOk(u, w, id) {
      SelectHands(t, serial, ttl, id);
      assert HeldOk(t, w, id);
      assert w < n ==> u.polls[w] == t.polls[w];
    }
    forall id: nat ensures HandedOk(u, id) {
      SelectHands(t, serial, ttl, id);
      assert HandedOk(t, id);
      if id < |u.rows| && u.rows[id].fate.Waiting? && InHands(u.handed, id) {
        if id in u.polls[n].ids {
          assert Held(u, serial, id);
        } else {
          StillHeld(t, u, t.rows[id].serial, id);
        }
      }
    }
  }

  /** What a poll adds to the hand-outs is its batch, and the batch is of the blade's rows. */
  lemma SelectHands(t: Table, serial: string, ttl: nat, id: nat)
    ensures var u := Step(t, Select(serial, ttl));
            && |u.polls| == |t.polls| + 1 && u.polls[|t.polls|].serial == serial
            && (InHands(u.handed, id) <==> InHands(t.handed, id) || id in u.polls[|t.polls|].ids)
            && (id in u.polls[|t.polls|].ids ==> id < |t.rows| && t.rows[id].serial == serial)
  {
    var u := Step(t, Select(serial, ttl));
    var hands := u.handed[|t.handed|..];
    assert u.handed == t.handed + hands;
    SelectHandsOutTheLiving(t, serial, ttl, id);
    InHandsMore(t.handed, hands, id);
  }

  /** A row stays held while the polls that hold it do. */
  lemma StillHeld(t: Table, u: Table, serial: string, id: nat)
    requires Held(t, serial, id)
    requires forall w :: 0 <= w < |t.polls| && id in t.polls[w].ids ==> w < |u.polls| && u.polls[w] == t.polls[w]
    ensures Held(u, serial, id)
  {
    var w :| 0 <= w < |t.polls| && t.polls[w].serial == serial && id in t.polls[w].ids;
    assert u.polls[w] == t.polls[w];
  }

  lemma MarkKeepsInv(t: Table, v: nat)
    requires Inv(t) && v < |t.polls|
    ensures Inv(Step(t, MarkAll(v)))
  {
    var u := Step(t, MarkAll(v));
    StepGrows(t, MarkAll(v));
    forall w: nat, id: nat ensures HeldOk(u, w, id) {
      assert HeldOk(t, w, id);
    }
    forall id: nat ensures HandedOk(u, id) {
      assert HandedOk(t, id);
      if id < |u.rows| && u.rows[id].fate.Waiting? && InHands(u.handed, id) {
        assert id !in t.polls[v].ids;
        StillHeld(t, u, t.rows[id].serial, id);
      }
    }
  }

  lemma StepKeepsInv(t: Table, e: Event)
    requires Inv(t)
    ensures Inv(Step(t, e))
  {
    if e.Select? {
      SelectKeepsInv(t, e.serial, e.ttl);
    } else if e.MarkAll? {
      if e.w < |t.polls| { MarkKeepsInv(t, e.w); }
    } else {
      var u := Step(t, e);
      StepGrows(t, e);
      assert u.handed == t.handed && u.polls == t.polls;
      forall w: nat, id: nat ensures HeldOk(u, w, id) {
        assert HeldOk(t, w, id);
      }
      forall id: nat ensures HandedOk(u, id) {
        assert HandedOk(t, id);
        if id < |t.rows| && Held(t, t.rows[id].serial, id) { StillHeld(t, u, t.rows[id].serial, id); }
      }
    }
  }

  lemma {:induction false} AlwaysInv(events: seq<Event>)
    ensures Inv(After(events))
  {
    if events != [] {
      AlwaysInv(events[..|events| - 1]);
      StepKeepsInv(After(events[..|events| - 1]), events[|events| - 1]);
    }
  }

  /** In every run, polls overlapping or not: a poll hands a command out again exactly if it is still living and another
      poll of that blade has selected it and not marked it yet. */
  lemma HandedOutAgainIff(events: seq<Event>, serial: string, ttl: nat, id: nat)
    ensures var t := After(events);
            var u := Step(t, Select(serial, ttl));
            |u.polls| == |t.polls| + 1 &&
            (id in u.polls[|t.polls|].ids && InHands(t.handed, id) <==>
                Living(t, serial, ttl, id) && Held(t, serial, id))
  {
    AlwaysInv(events);
    var t := After(events);
    SelectHandsOutTheLiving(t, serial, ttl, id);
    assert HandedOk(t, id);
    if Held(t, serial, id) {
      var w :| 0 <= w < |t.polls| && t.polls[w].serial == serial && id in t.polls[w].ids;
      assert HeldOk(t, w, id);
    }
  }

  /** A poll begins only when no other poll of the blade has rows left to mark. */
  ghost predicate InTurn(t: Table, e: Event) {
    e.Select? ==> forall w :: 0 <= w < |t.polls| && t.polls[w].serial == e.serial ==> t.polls[w].ids == []
  }

  ghost predicate PollsInTurn(events: seq<Event>) {
    events == [] || (PollsInTurn(events[..|events| - 1]) && InTurn(After(events[..|events| - 1]), events[|events| - 1]))
  }

  ghost predicate HandsApart(hands: seq<Hand>) {
    forall i, j :: 0 <= i < j < |hands| ==> hands[i].id != hands[j].id
  }

  /** With the polls of a blade in turn, no command is handed out twice in any run. */
  lemma {:induction false} HandedOutAtMostOnce(events: seq<Event>)
    requires PollsInTurn(events)
    ensures HandsApart(After(events).handed)
  {
    if events != [] {
      var front, e := events[..|events| - 1], events[|events| - 1];
      HandedOutAtMostOnce(front);
      if e.Select? { SelectedAreNew(front, e.serial, e.ttl); }
    }
  }

  lemma SelectedAreNew(events: seq<Event>, serial: string, ttl: nat)
    requires HandsApart(After(events).handed) && InTurn(After(events), Select(serial, ttl))
    ensures HandsApart(Step(After(events), Select(serial, ttl)).handed)
  {
    var t := After(events);
    var rows := Expire(t.rows, serial, t.clock, ttl);
    var ids := DueIds(rows, serial);
    var u := Step(t, Select(serial, ttl));
    DueIdsExact(rows, serial);
    forall i, j | 0 <= i < j < |u.handed| ensures u.handed[i].id != u.handed[j].id {
      if j >= |t.handed| {
        var id := u.handed[j].id;
        assert id == ids[j - |t.handed|] && id in ids;
        if i < |t.handed| {
          HandedOutAgainIff(events, serial, ttl, id);
          assert !Held(t, serial, id);
          assert !InHands(t.handed, id);
        }
      }
    }
  }

  /** Two polls at once, and the command goes out twice. */
  lemma OverlappingPollsHandOutTwice()
    ensures var t := After([Ask("b", "reboot", true), Select("b", 60_000), Select("b", 60_000)]);
            t.handed == [Hand(0, 0), Hand(0, 0)]
  {
    var a, b := Ask("b", "reboot", true), Select("b", 60_000);
    assert [a, b, b][..2] == [a, b] && [a, b][..1] == [a] && [a][..0] == [];
    var row := Row("b", "reboot", 0, Waiting);
    var t1 := Step(After([]), a);
    assert t1.rows == [row];
    assert After([a]) == t1;
    assert Expire([row], "b", 0, 60_000) == [row];
    assert [row][..0] == [] && DueIds([row], "b") == [0];
    assert Hands([0], 0) == [Hand(0, 0)];
    var t2 := Step(t1, b);
    assert After([a, b]) == t2 && t2.rows == [row] && t2.handed == [Hand(0, 0)];
    assert After([a, b, b]) == Step(t2, b);
  }

  // ---- Asking ----

  /** Asking replaces: while every request replaces, at most one command of a kind waits for a blade. */
  ghost predicate OneOfAKind(rows: seq<Row>) {
    forall i, j :: 0 <= i < j < |rows| && rows[i].fate.Waiting? && rows[j].fate.Waiting? ==>
      rows[i].serial != rows[j].serial || rows[i].kind != rows[j].kind
  }

  lemma {:induction false} AskingTwiceWaitsOnce(events: seq<Event>)
    requires forall k :: 0 <= k < |events| && events[k].Ask? ==> events[k].replacing
    ensures OneOfAKind(After(events).rows)
  {
    if events != [] {
      var front, e := events[..|events| - 1], events[|events| - 1];
      AskingTwiceWaitsOnce(front);
      StepGrows(After(front), e);
      if e.Ask? { AskKeepsOneIff(After(front), e.serial, e.kind, e.replacing); }
    }
  }

  /** Exactly when a request leaves at most one command of a kind waiting: when it replaces, or none of that kind waits
      for that blade. */
  lemma AskKeepsOneIff(t: Table, serial: string, kind: string, replacing: bool)
    requires OneOfAKind(t.rows)
    ensures OneOfAKind(Step(t, Ask(serial, kind, replacing)).rows) <==>
            replacing || forall id :: 0 <= id < |t.rows| && Due(t.rows[id], serial) ==> t.rows[id].kind != kind
  {
    var rows := Step(t, Ask(serial, kind, replacing)).rows;
    var n := |t.rows|;
    assert rows[n] == Row(serial, kind, t.clock, Waiting);
    if !replacing && exists id :: 0 <= id < n && Due(t.rows[id], serial) && t.rows[id].kind == kind {
      var id :| 0 <= id < n && Due(t.rows[id], serial) && t.rows[id].kind == kind;
      assert rows[id] == t.rows[id];
    }
  }

  /** The web form inserts without replacing, and then two of a kind wait. */
  lemma TheFormStacks()
    ensures !OneOfAKind(After([Ask("b", "reboot", false), Ask("b", "reboot", false)]).rows)
  {
    var a := Ask("b", "reboot", false);
    assert [a, a][..1] == [a] && [a][..0] == [];
    var t := Step(After([]), a);
    assert After([a]) == t;
    var rows := After([a, a]).rows;
    assert rows == Step(t, a).rows;
    assert |rows| == 2 && rows[0] == rows[1] == Row("b", "reboot", 0, Waiting);
  }

  /** Withdrawing takes exactly the waiting commands of the blade, of one kind or of all, out of the queue. */
  lemma WithdrawMeans(t: Table, serial: string, only: Option<string>, id: nat)
    requires id < |t.rows|
    ensures var u := Step(t, Withdraw(serial, only));
            var hit := Due(t.rows[id], serial) && (only.None? || only.value == t.rows[id].kind);
            && |u.rows| == |t.rows| && u.handed == t.handed && u.polls == t.polls
            && u.rows[id] == (if hit then t.rows[id].(fate := Withdrawn) else t.rows[id])
  {
  }

  // ---- What has become of a command ----

  /** The events that settle a command in this way. Only waiting ones are replaced, withdrawn or expire; a poll marks
      whatever it holds. */
  predicate Settles(t: Table, e: Event, id: nat, fate: Fate) {
    id < |t.rows| &&
    var row := t.rows[id];
    match fate
    case Waiting => false
    case Replaced => row.fate == Waiting && e == Ask(row.serial, row.kind, true)
    case Expired =>
      row.fate == Waiting && e.Select? && e.serial == row.serial && Second(row.asked) < Second(t.clock - e.ttl)
    case Withdrawn =>
      row.fate == Waiting && e.Withdraw? && e.serial == row.serial && (e.only == None || e.only == Some(row.kind))
    case Taken => e.MarkAll? && e.w < |t.polls| && id in t.polls[e.w].ids
  }

  ghost predicate HasFate(events: seq<Event>, id: nat, fate: Fate) {
    var t := After(events); id < |t.rows| && t.rows[id].fate == fate
  }

  ghost function FateAt(events: seq<Event>, id: nat, fate: Fate): nat -> bool {
    (i: nat) => i <= |events| && HasFate(events[..i], id, fate)
  }

  ghost function SettledAt(events: seq<Event>, id: nat, fate: Fate): nat -> bool {
    (i: nat) => i < |events| && Settles(After(events[..i]), events[i], id, fate)
  }

  lemma OneFate(t: Table, e: Event, id: nat, fate: Fate)
    requires fate != Waiting && id < |t.rows|
    ensures Step(t, e).rows[id].fate == fate <==>
            Settles(t, e, id, fate) || (t.rows[id].fate == fate && !Settles(t, e, id, Taken))
  {
  }

  /** Settled so at some event of the run, and in no poll's hands to be marked since. */
  ghost predicate Settled(events: seq<Event>, id: nat, fate: Fate) {
    exists i: nat :: Latch.SetAt(|events|, SettledAt(events, id, fate), SettledAt(events, id, Taken), i)
  }

  lemma FateNext(events: seq<Event>, id: nat, fate: Fate, i: nat)
    requires i < |events| && fate != Waiting
    ensures FateAt(events, id, fate)(i + 1) <==>
            SettledAt(events, id, fate)(i) || (FateAt(events, id, fate)(i) && !SettledAt(events, id, Taken)(i))
  {
    assert events[..i + 1][..i] == events[..i];
    var t := After(events[..i]);
    if id < |t.rows| { OneFate(t, events[i], id, fate); }
  }

  /** Over every run: a command was replaced, withdrawn, has expired or was taken exactly if an event settled it so;
      and the mark of a poll that held it overrides all the others. */
  lemma FateIff(events: seq<Event>, id: nat, fate: Fate)
    requires fate != Waiting
    ensures HasFate(events, id, fate) <==> Settled(events, id, fate)
  {
    var up, sets, clears := FateAt(events, id, fate), SettledAt(events, id, fate), SettledAt(events, id, Taken);
    forall i: nat {:trigger sets(i)} | i < |events| ensures up(i + 1) <==> sets(i) || (up(i) && !clears(i)) {
      FateNext(events, id, fate, i);
    }
    assert !up(0) by { assert events[..0] == []; }
    Latch.UpIffSet(|events|, up, sets, clears);
    assert events[..|events|] == events;
  }

  // ---- As it runs ----

  /** The table as the handlers see it. */
  class CommandTable {
    var rows: seq<Row>

    constructor ()
      ensures rows == []
    {
      rows := [];
    }

    method QueueCommand(serial: string, kind: string, now: nat)
      modifies this
      ensures forall polls, handed :: rows == Step(Table(old(rows), now, polls, handed), Ask(serial, kind, true)).rows
    {
      rows := Mark(rows, (row: Row) => Due(row, serial) && row.kind == kind, Replaced);
      rows := rows + [Row(serial, kind, now, Waiting)];
    }

    /** The first half of hBladeCommands: expire and select. */
    method SelectBatch(serial: string, ttl: nat, now: nat) returns (ids: seq<nat>)
      modifies this
      ensures forall polls, handed ::
                var u := Step(Table(old(rows), now, polls, handed), Select(serial, ttl));
                rows == u.rows && u.polls == polls + [Batch(serial, ids)] && u.handed == handed + Hands(ids, now)
    {
      rows := Expire(rows, serial, now, ttl);
      ids := SelectDue(rows, serial);
    }

    /** The second half: each id of the batch in turn, whatever has become of the row meanwhile. */
    method MarkTaken(ids: seq<nat>)
      requires forall k :: 0 <= k < |ids| ==> ids[k] < |rows|
      modifies this
      ensures rows == MarkIds(old(rows), ids)
    {
      var n := 0;
      while n < |ids|
        invariant n <= |ids| && |rows| == |old(rows)|
        invariant forall id :: 0 <= id < |rows| ==>
                  rows[id] == if id in ids[..n] then old(rows)[id].(fate := Taken) else old(rows)[id]
      {
        assert ids[..n + 1] == ids[..n] + [ids[n]];
        rows := rows[ids[n] := rows[ids[n]].(fate := Taken)];
        n := n + 1;
      }
      assert ids[..n] == ids;
    }
  }

  /** The rows.Next loop. */
  method SelectDue(rows: seq<Row>, serial: string) returns (ids: seq<nat>)
    ensures ids == DueIds(rows, serial)
  {
    ids := [];
    var k := 0;
    while k < |rows|
      invariant k <= |rows|
      invariant ids == DueIds(rows[..k], serial)
    {
      assert rows[..k + 1][..k] == rows[..k];
      if Due(rows[k], serial) { ids := ids + [k]; }
      k := k + 1;
    }
    assert rows[..k] == rows;
  }
}
