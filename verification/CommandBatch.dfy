/** What an agent does with a batch of commands (agent/main.go): the stale are skipped, of each kind the newest
    counts, and the kinds are run in order of rank. */
module CommandBatch {
  import opened Wrappers
  import Seqs

  /** The stamp is absent when it is empty or cannot be read. */
  datatype Command = Command(id: int, kind: string, created: Option<int>)

  const COMMAND_TTL := 15 * 60 * 1000

  predicate Stale(c: Command, now: int) {
    c.created.Some? && now - 1000 * c.created.value > COMMAND_TTL
  }

  function Rank(kind: string): int {
    match kind
    case "identify" => 0
    case "identify_off" => 0
    case "stealth_on" => 0
    case "stealth_off" => 0
    case "reimage" => 8
    case "reboot" => 9
    case "shutdown" => 10
    case _ => 5
  }

  // ---- The kinds, in order of first appearance ----

  function Kinds(cmds: seq<Command>, now: int): seq<string> {
    if cmds == [] then []
    else
      var last := |cmds| - 1;
      var kinds := Kinds(cmds[..last], now);
      if Stale(cmds[last], now) || cmds[last].kind in kinds then kinds else kinds + [cmds[last].kind]
  }

  /** The place of the last command of a kind that is not stale. */
  ghost predicate IsNewest(cmds: seq<Command>, now: int, kind: string, k: int) {
    && 0 <= k < |cmds| && cmds[k].kind == kind && !Stale(cmds[k], now)
    && forall j :: k < j < |cmds| ==> cmds[j].kind != kind || Stale(cmds[j], now)
  }

  predicate Distinct(s: seq<string>) {
    forall i, j :: 0 <= i < j < |s| ==> s[i] != s[j]
  }

  lemma {:induction false} KindsAreThoseNotStale(cmds: seq<Command>, now: int)
    ensures Distinct(Kinds(cmds, now))
    ensures forall kind :: kind in Kinds(cmds, now) <==>
            exists k :: 0 <= k < |cmds| && cmds[k].kind == kind && !Stale(cmds[k], now)
  {
    if cmds != [] {
      var last := |cmds| - 1;
      var front := cmds[..last];
      KindsAreThoseNotStale(front, now);
      forall kind
        ensures (exists k :: 0 <= k < |cmds| && cmds[k].kind == kind && !Stale(cmds[k], now)) <==>
                kind in Kinds(front, now) || (cmds[last].kind == kind && !Stale(cmds[last], now))
      {
        if kind in Kinds(front, now) {
          var k :| 0 <= k < |front| && front[k].kind == kind && !Stale(front[k], now);
          assert cmds[k] == front[k];
        }
        if k :| 0 <= k < |cmds| && cmds[k].kind == kind && !Stale(cmds[k], now) && k < last {
          assert front[k] == cmds[k];
        }
      }
    }
  }

  // ---- A stable sort ----

  type Ranking = string -> int

  function Insert(rank: Ranking, x: string, s: seq<string>): seq<string> {
    if s == [] then [x] else if rank(x) <= rank(s[0]) then [x] + s else [s[0]] + Insert(rank, x, s[1..])
  }

  function StableSort(rank: Ranking, s: seq<string>): seq<string> {
    if s == [] then [] else Insert(rank, s[0], StableSort(rank, s[1..]))
  }

  function OfRank(rank: Ranking, s: seq<string>, r: int): seq<string> {
    if s == [] then [] else if rank(s[0]) == r then [s[0]] + OfRank(rank, s[1..], r) else OfRank(rank, s[1..], r)
  }

  ghost predicate InOrder(rank: Ranking, s: seq<string>) {
    forall i, j :: 0 <= i <= j < |s| ==> rank(s[i]) <= rank(s[j])
  }

  lemma {:induction false} InsertKeepsOrder(rank: Ranking, x: string, s: seq<string>)
    requires InOrder(rank, s)
    ensures InOrder(rank, Insert(rank, x, s)) && multiset(Insert(rank, x, s)) == multiset{x} + multiset(s)
  {
    if s != [] {
      assert s == [s[0]] + s[1..];
      if rank(s[0]) < rank(x) {
        InsertKeepsOrder(rank, x, s[1..]);
        LeastInFront(rank, s[0], x, s[1..], Insert(rank, x, s[1..]));
      }
    }
  }

  lemma LeastInFront(rank: Ranking, least: string, x: string, s: seq<string>, r: seq<string>)
    requires rank(least) <= rank(x) && (forall k :: 0 <= k < |s| ==> rank(least) <= rank(s[k]))
    requires multiset(r) == multiset{x} + multiset(s) && InOrder(rank, r)
    ensures InOrder(rank, [least] + r)
  {
    forall j | 0 <= j < |r| ensures rank(least) <= rank(r[j]) {
      assert r[j] in multiset(r);
      assert r[j] == x || r[j] in s;
    }
  }

  lemma {:induction false} InsertIsStable(rank: Ranking, x: string, s: seq<string>, r: int)
    ensures OfRank(rank, Insert(rank, x, s), r) == (if rank(x) == r then [x] else []) + OfRank(rank, s, r)
  {
    if s == [] || rank(x) <= rank(s[0]) {
      assert ([x] + s)[1..] == s;
    } else {
      var rest := Insert(rank, x, s[1..]);
      InsertIsStable(rank, x, s[1..], r);
      assert ([s[0]] + rest)[1..] == rest;
    }
  }

  /** The sort arranges the same kinds by rank and keeps those of equal rank in order. */
  lemma {:induction false} SortIsStable(rank: Ranking, s: seq<string>, r: int)
    ensures InOrder(rank, StableSort(rank, s)) && multiset(StableSort(rank, s)) == multiset(s)
    ensures OfRank(rank, StableSort(rank, s), r) == OfRank(rank, s, r)
  {
    if s != [] {
      var rest := StableSort(rank, s[1..]);
      SortIsStable(rank, s[1..], r);
      InsertKeepsOrder(rank, s[0], rest);
      InsertIsStable(rank, s[0], rest, r);
      assert s == [s[0]] + s[1..];
    }
  }

  // ---- The batch ----

  function KindsOf(todo: seq<Command>): (r: seq<string>)
    ensures |r| == |todo|
  {
    seq(|todo|, k requires 0 <= k < |todo| => todo[k].kind)
  }

  /** What is considered, in order: of every kind that is not stale the newest command, the kinds arranged by rank. */
  ghost predicate Considered(cmds: seq<Command>, now: int, todo: seq<Command>) {
    && KindsOf(todo) == StableSort(Rank, Kinds(cmds, now))
    && forall i :: 0 <= i < |todo| ==> InNewest(cmds, now, todo[i])
  }

  ghost predicate InNewest(cmds: seq<Command>, now: int, c: Command) {
    exists k :: IsNewest(cmds, now, c.kind, k) && cmds[k] == c
  }

  /** The loop that fills the map and the list. */
  method Collect(cmds: seq<Command>, now: int) returns (newest: map<string, Command>, order: seq<string>)
    ensures order == Kinds(cmds, now)
    ensures forall kind :: kind in order ==>
            kind in newest && newest[kind].kind == kind && InNewest(cmds, now, newest[kind])
  {
    newest, order := map[], [];
    var n := 0;
    while n < |cmds|
      invariant n <= |cmds|
      invariant order == Kinds(cmds[..n], now)
      invariant forall kind :: kind in newest <==> kind in order
      invariant forall kind :: kind in newest ==> newest[kind].kind == kind && InNewest(cmds[..n], now, newest[kind])
    {
      var c := cmds[n];
      assert cmds[..n + 1][..n] == cmds[..n];
      OneMore(cmds, n, now);
      if !Stale(c, now) {
        if c.kind !in newest { order := order + [c.kind]; }
        newest := newest[c.kind := c];
      }
      n := n + 1;
    }
    assert cmds[..n] == cmds;
  }

  /** One more command becomes the newest of its kind, unless it is stale; the others stay the newest of theirs. */
  lemma OneMore(cmds: seq<Command>, n: nat, now: int)
    requires n < |cmds|
    ensures !Stale(cmds[n], now) ==> InNewest(cmds[..n + 1], now, cmds[n])
    ensures forall c :: InNewest(cmds[..n], now, c) && (Stale(cmds[n], now) || c.kind != cmds[n].kind) ==>
            InNewest(cmds[..n + 1], now, c)
  {
    if !Stale(cmds[n], now) { assert IsNewest(cmds[..n + 1], now, cmds[n].kind, n); }
    forall c | InNewest(cmds[..n], now, c) && (Stale(cmds[n], now) || c.kind != cmds[n].kind)
      ensures InNewest(cmds[..n + 1], now, c) {
      var k :| IsNewest(cmds[..n], now, c.kind, k) && cmds[..n][k] == c;
      assert IsNewest(cmds[..n + 1], now, c.kind, k);
    }
  }

  /** runCommands up to the switch. */
  method RunCommands(cmds: seq<Command>, now: int) returns (todo: seq<Command>)
    ensures Considered(cmds, now, todo)
  {
    var newest, order := Collect(cmds, now);
    var sorted := StableSort(Rank, order);
    SortIsStable(Rank, order, 0);
    forall i | 0 <= i < |sorted| ensures sorted[i] in order {
      assert sorted[i] in multiset(sorted);
    }
    todo := seq(|sorted|, i requires 0 <= i < |sorted| => newest[sorted[i]]);
    assert KindsOf(todo) == sorted;
  }

  /** Exactly one command of each kind is considered, and it is the newest that is not stale. */
  lemma OnePerKindTheNewest(cmds: seq<Command>, now: int, todo: seq<Command>)
    requires Considered(cmds, now, todo)
    ensures Distinct(KindsOf(todo))
    ensures forall kind :: kind in KindsOf(todo) <==>
            exists k :: 0 <= k < |cmds| && cmds[k].kind == kind && !Stale(cmds[k], now)
    ensures forall i, k :: 0 <= i < |todo| && IsNewest(cmds, now, todo[i].kind, k) ==> todo[i] == cmds[k]
  {
    var kinds := Kinds(cmds, now);
    KindsAreThoseNotStale(cmds, now);
    SortIsStable(Rank, kinds, 0);
    Seqs.DistinctIsOnce(kinds);
    Seqs.DistinctIsOnce(KindsOf(todo));
    forall kind ensures kind in KindsOf(todo) <==> kind in kinds {
      assert kind in KindsOf(todo) <==> kind in multiset(KindsOf(todo));
      assert kind in kinds <==> kind in multiset(kinds);
    }
  }

  lemma RankMeans(kind: string)
    ensures Rank(kind) <= 10 && (Rank(kind) == 10 <==> kind == "shutdown") && (Rank(kind) == 9 <==> kind == "reboot")
  {
  }

  /** Ranks never fall along the batch: nothing follows a shutdown, and only a shutdown follows a reboot. */
  lemma ShutdownIsLast(cmds: seq<Command>, now: int, todo: seq<Command>, i: nat, j: nat)
    requires Considered(cmds, now, todo) && i < j < |todo|
    ensures Rank(todo[i].kind) <= Rank(todo[j].kind)
    ensures todo[i].kind != "shutdown"
    ensures todo[i].kind == "reboot" ==> todo[j].kind == "shutdown"
  {
    OnePerKindTheNewest(cmds, now, todo);
    SortIsStable(Rank, Kinds(cmds, now), 0);
    var kinds := KindsOf(todo);
    assert kinds[i] == todo[i].kind && kinds[j] == todo[j].kind;
    RankMeans(kinds[i]);
    RankMeans(kinds[j]);
  }

  /** Signs on the blade come first, an installation only before a restart or a shutdown; and whatever this list does
      not know stands between. */
  lemma SignsFirst(cmds: seq<Command>, now: int, todo: seq<Command>, i: nat, j: nat)
    requires Considered(cmds, now, todo) && i < j < |todo|
    ensures IsSign(todo[j].kind) ==> IsSign(todo[i].kind)
    ensures todo[i].kind == "reimage" ==> todo[j].kind == "reboot" || todo[j].kind == "shutdown"
  {
    ShutdownIsLast(cmds, now, todo, i, j);
    OnePerKindTheNewest(cmds, now, todo);
    var kinds := KindsOf(todo);
    assert kinds[i] == todo[i].kind && kinds[j] == todo[j].kind;
    RankOfSigns(todo[i].kind);
    RankOfSigns(todo[j].kind);
    RankMeans(todo[j].kind);
  }

  predicate IsSign(kind: string) {
    kind == "identify" || kind == "identify_off" || kind == "stealth_on" || kind == "stealth_off"
  }

  lemma RankOfSigns(kind: string)
    ensures Rank(kind) >= 0 && (Rank(kind) == 0 <==> IsSign(kind)) && (Rank(kind) == 8 <==> kind == "reimage")
    ensures Rank(kind) >= 8 ==> kind == "reimage" || kind == "reboot" || kind == "shutdown"
  {
  }

  /** A command is stale once a quarter of an hour has gone by since its second, and not at it; one without a readable
      time never is. */
  lemma StaleAfterAQuarter(c: Command, now: int)
    ensures Stale(c, now) <==> c.created.Some? && now > 1000 * c.created.value + 900_000
  {
  }
}
