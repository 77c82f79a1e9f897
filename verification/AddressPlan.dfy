/** The address plan: every BladeRunner holds a block of host numbers in its site, every blade gets the number
    of its block plus its slot (server/ipam.go, server/db.go nextRackOffset, moveRack, updateRack, decorate). */
module AddressPlan {
  import opened Wrappers

  datatype Site = Site(base: int, step: int, poolFrom: int, poolTo: int)

  datatype Rack = Rack(site: nat, size: int, offset: int)

  /** rack_id and slot are separate columns and either may be null. */
  datatype Position = Position(rack: Option<nat>, slot: Option<int>)

  datatype Plan = Plan(sites: map<nat, Site>, racks: map<nat, Rack>, blades: map<string, Position>, nextRack: nat)

  const EMPTY := Plan(map[], map[], map[], 1)
  const NOWHERE := Position(None, None)
  const LIMIT := 250

  predicate ValidSize(n: int) {
    n == 2 || n == 4 || n == 10 || n == 20
  }

  predicate ValidSlot(size: int, slot: int) {
    1 <= slot <= size
  }

  // ---- The allocator ----

  /** The offset the loop of nextRackOffset looks at in its k-th turn. */
  function Offset(base: int, step: int, k: nat): int {
    base + k * step
  }

  /** The loop ends in turn k: past the limit, or at a free offset. */
  predicate Stops(used: set<int>, base: int, step: int, k: nat) {
    Offset(base, step, k) + step > LIMIT || Offset(base, step, k) !in used
  }

  /** A finite set of offsets has something below all of it. */
  lemma {:induction false} Below(used: set<int>) returns (b: int)
    ensures forall x :: x in used ==> b < x
  {
    b := 0;
    if x :| x in used {
      b := Below(used - {x});
      assert forall y :: y in used ==> y == x || y in used - {x};
      b := if b < x then b else x - 1;
    }
  }

  lemma ProductGrows(j: int, k: int, step: int)
    requires j <= k && step >= 0
    ensures j * step <= k * step
  {
    assert (k - j) * step >= 0;
  }

  /** The loop ends at all exactly unless the step is zero and the base is taken. */
  lemma AllocatorEndsIff(used: set<int>, base: int, step: int)
    ensures (exists k: nat :: Stops(used, base, step, k)) <==> step != 0 || base > LIMIT || base !in used
  {
    if step == 0 {
      assert forall k: nat :: Offset(base, step, k) == base;
      assert Stops(used, base, step, 0) <==> base > LIMIT || base !in used;
    } else if step > 0 {
      var k: nat := if base > LIMIT then 0 else LIMIT - base;
      ProductGrows(1, step, k);
      assert Stops(used, base, step, k);
    } else {
      var b := Below(used);
      var k: nat := if base < b then 0 else base - b + 1;
      ProductGrows(step, -1, k);
      assert Offset(base, step, k) !in used;
      assert Stops(used, base, step, k);
    }
  }

  /** What nextRackOffset gives: the first free offset of the site's grid, if it fits below the limit. */
  ghost predicate IsNext(used: set<int>, base: int, step: int, r: Option<int>) {
    exists k: nat ::
      && Stops(used, base, step, k)
      && (forall j: nat :: j < k ==> !Stops(used, base, step, j))
      && r == if Offset(base, step, k) + step > LIMIT then None else Some(Offset(base, step, k))
  }

  lemma NextIsUnique(used: set<int>, base: int, step: int, r: Option<int>, q: Option<int>)
    requires IsNext(used, base, step, r) && IsNext(used, base, step, q)
    ensures r == q
  {
  }

  /** nextRackOffset, with the offsets used at the site. */
  method NextRackOffset(used: set<int>, base: int, step: int) returns (r: Option<int>)
    requires step != 0 || base > LIMIT || base !in used
    ensures IsNext(used, base, step, r)
  {
    AllocatorEndsIff(used, base, step);
    ghost var end: nat :| Stops(used, base, step, end);
    var off := base;
    ghost var k: nat := 0;
    while off + step <= LIMIT
      invariant off == Offset(base, step, k) && k <= end
      invariant forall j: nat :: j < k ==> !Stops(used, base, step, j)
      decreases end - k
    {
      if off !in used {
        assert Stops(used, base, step, k);
        return Some(off);
      }
      assert !Stops(used, base, step, k);
      assert Offset(base, step, k + 1) == Offset(base, step, k) + step;
      off := off + step;
      k := k + 1;
    }
    assert Stops(used, base, step, k);
    return None;
  }

  function UsedAt(p: Plan, site: nat): set<int> {
    set i | i in p.racks && p.racks[i].site == site :: p.racks[i].offset
  }

  // ---- Operations ----

  /** `offset` in CreateRack and MoveRack is what the allocator returned. */
  datatype Op =
    | CreateSite(id: nat, site: Site)
    | UpdateSite(id: nat, poolFrom: int, poolTo: int)
    | DeleteSite(id: nat)
    | CreateRack(at: nat, size: int, offset: Option<int>)
    | MoveRack(rack: nat, to: nat, offset: Option<int>)
    | ResizeRack(rack: nat, size: int)
    | DeleteRack(rack: nat)
    | Enrol(serial: string)
    | Place(serial: string, rack: nat, slot: int)
    | UpdateBlade(serial: string, newRack: Option<nat>, newSlot: Option<int>)
    | TakeOut(serial: string)
    | Forget(serial: string)

  /** createSite and updateSite refuse any other pool. */
  predicate PoolValid(from: int, to: int) {
    0 < from < to <= 254
  }

  predicate Taken(p: Plan, pos: Position, mover: string) {
    exists t :: t in p.blades && t != mover && p.blades[t] == pos
  }

  /** The checks of placeBlade, made again by hBladeUpdate: unit there, slot inside it, slot free. */
  predicate MayStand(p: Plan, s: string, pos: Position) {
    pos.rack.Some? && pos.slot.Some? ==>
      && pos.rack.value in p.racks
      && ValidSlot(p.racks[pos.rack.value].size, pos.slot.value)
      && !Taken(p, pos, s)
  }

  /** hBladeUpdate: a field that is not sent stays, zero clears. */
  function Updated(pos: Position, newRack: Option<nat>, newSlot: Option<int>): Position {
    Position(if newRack.None? then pos.rack else if newRack.value == 0 then None else newRack,
             if newSlot.None? then pos.slot else if newSlot.value == 0 then None else newSlot)
  }

  predicate Occupied(p: Plan, rack: nat) {
    exists t :: t in p.blades && p.blades[t].rack == Some(rack)
  }

  /** No blade sits in a slot that would disappear. */
  predicate Shrinkable(p: Plan, rack: nat, size: int) {
    forall t :: t in p.blades && p.blades[t].rack == Some(rack) && p.blades[t].slot.Some? ==>
        p.blades[t].slot.value <= size
  }

  /** A blade holding a slot of the unit. */
  predicate InRack(p: Plan, rack: nat, t: string) {
    t in p.blades && p.blades[t].rack == Some(rack) && p.blades[t].slot.Some?
  }

  function Step(p: Plan, op: Op): Plan {
    match op
    case CreateSite(id, site) =>
      if id in p.sites || !PoolValid(site.poolFrom, site.poolTo) then p else p.(sites := p.sites[id := site])
    case UpdateSite(id, from, to) =>
      // updateSite leaves offset_base and offset_step alone.
      if id !in p.sites || !PoolValid(from, to) then p
      else p.(sites := p.sites[id := p.sites[id].(poolFrom := from, poolTo := to)])
    case DeleteSite(id) =>
      if (exists i :: i in p.racks && p.racks[i].site == id) || |p.sites| <= 1 then p
      else p.(sites := p.sites - {id})
    case CreateRack(site, size, offset) =>
      if site !in p.sites || !ValidSize(size) || offset.None? then p
      else p.(racks := p.racks[p.nextRack := Rack(site, size, offset.value)], nextRack := p.nextRack + 1)
    case MoveRack(rack, to, offset) =>
      if rack !in p.racks || to !in p.sites || p.racks[rack].site == to || offset.None? then p
      else p.(racks := p.racks[rack := p.racks[rack].(site := to, offset := offset.value)])
    case ResizeRack(rack, size) =>
      if rack !in p.racks then p
      else
        var n := if size == 0 then p.racks[rack].size else size;
        if !ValidSize(n) || (n < p.racks[rack].size && !Shrinkable(p, rack, n)) then p
        else p.(racks := p.racks[rack := p.racks[rack].(size := n)])
    case DeleteRack(rack) => if Occupied(p, rack) then p else p.(racks := p.racks - {rack})
    case Enrol(s) => if s in p.blades then p else p.(blades := p.blades[s := NOWHERE])
    case Place(s, rack, slot) =>
      var pos := Position(Some(rack), Some(slot));
      if s in p.blades && MayStand(p, s, pos) then p.(blades := p.blades[s := pos]) else p
    case UpdateBlade(s, newRack, newSlot) =>
      if s !in p.blades then p
      else
        var pos := Updated(p.blades[s], newRack, newSlot);
        if MayStand(p, s, pos) then p.(blades := p.blades[s := pos]) else p
    case TakeOut(s) => if s in p.blades then p.(blades := p.blades[s := NOWHERE]) else p
    case Forget(s) => if s in p.blades && p.blades[s].rack.None? then p.(blades := p.blades - {s}) else p
  }

  /** The environment of an operation: the offsets of units come from the allocator. Sites may have any base
      and step. */
  ghost predicate Automatic(p: Plan, op: Op) {
    match op
    case CreateRack(site, _, offset) => site in p.sites ==>
        IsNext(UsedAt(p, site), p.sites[site].base, p.sites[site].step, offset)
    case MoveRack(_, to, offset) => to in p.sites ==> IsNext(UsedAt(p, to), p.sites[to].base, p.sites[to].step, offset)
    case _ => true
  }

  function Run(ops: seq<Op>): Plan {
    if ops == [] then EMPTY else Step(Run(ops[..|ops| - 1]), ops[|ops| - 1])
  }

  ghost predicate Allocated(ops: seq<Op>) {
    ops == [] || (Allocated(ops[..|ops| - 1]) && Automatic(Run(ops[..|ops| - 1]), ops[|ops| - 1]))
  }

  /** No operation changes the grid of a site that stays: updating one writes the pool and leaves base and
      step alone. */
  lemma GridStays(p: Plan, op: Op, id: nat)
    requires id in p.sites && id in Step(p, op).sites
    ensures Step(p, op).sites[id].base == p.sites[id].base && Step(p, op).sites[id].step == p.sites[id].step
  {
  }

  // ---- The invariant ----

  ghost predicate OnGrid(offset: int, site: Site) {
    exists k: nat :: offset == Offset(site.base, site.step, k)
  }

  /** On the grid of its site, at an offset the allocator reaches before it gives up. */
  ghost predicate RackFits(p: Plan, r: Rack) {
    && r.site in p.sites && ValidSize(r.size)
    && var st := p.sites[r.site];
       OnGrid(r.offset, st) && r.offset + st.step <= LIMIT && st.base + st.step <= LIMIT
  }

  ghost predicate RacksFit(p: Plan) {
    && (forall i :: i in p.racks ==> i < p.nextRack && RackFits(p, p.racks[i]))
    && (forall i, j :: i in p.racks && j in p.racks && i != j ==>
          p.racks[i].site != p.racks[j].site || p.racks[i].offset != p.racks[j].offset)
  }

  predicate Placed(pos: Position) {
    pos.rack.Some? && pos.slot.Some?
  }

  ghost predicate BladesFit(p: Plan) {
    && (forall s :: s in p.blades && Placed(p.blades[s]) ==>
          && p.blades[s].rack.value in p.racks
          && ValidSlot(p.racks[p.blades[s].rack.value].size, p.blades[s].slot.value))
    && (forall s, t :: s in p.blades && t in p.blades && s != t && Placed(p.blades[s]) ==> p.blades[s] != p.blades[t])
  }

  lemma FirstOffset(base: int, step: int)
    ensures Offset(base, step, 0) == base
  {
  }

  /** The turn in which the allocator stops with an offset. */
  lemma NextTurn(used: set<int>, base: int, step: int, offset: int) returns (k: nat)
    requires IsNext(used, base, step, Some(offset))
    ensures Stops(used, base, step, k) && (k > 0 ==> !Stops(used, base, step, 0))
    ensures offset == Offset(base, step, k) && offset + step <= LIMIT
  {
    k :| && Stops(used, base, step, k)
         && (forall j: nat :: j < k ==> !Stops(used, base, step, j))
         && Some(offset) ==
            if Offset(base, step, k) + step > LIMIT then None else Some(Offset(base, step, k));
  }

  lemma FirstTurnGoesOn(used: set<int>, base: int, step: int)
    requires !Stops(used, base, step, 0)
    ensures base + step <= LIMIT
  {
    FirstOffset(base, step);
  }

  lemma NextMeans(used: set<int>, st: Site, offset: int)
    requires IsNext(used, st.base, st.step, Some(offset))
    ensures OnGrid(offset, st) && offset + st.step <= LIMIT && st.base + st.step <= LIMIT && offset !in used
  {
    var k := NextTurn(used, st.base, st.step, offset);
    if k > 0 { FirstTurnGoesOn(used, st.base, st.step); } else { FirstOffset(st.base, st.step); }
  }

  lemma NextFits(p: Plan, site: nat, offset: int)
    requires site in p.sites && IsNext(UsedAt(p, site), p.sites[site].base, p.sites[site].step, Some(offset))
    ensures var st := p.sites[site]; OnGrid(offset, st) && offset + st.step <= LIMIT && st.base + st.step <= LIMIT
    ensures forall i :: i in p.racks && p.racks[i].site == site ==> p.racks[i].offset != offset
  {
    NextMeans(UsedAt(p, site), p.sites[site], offset);
    forall i | i in p.racks && p.racks[i].site == site ensures p.racks[i].offset != offset {
      assert p.racks[i].offset in UsedAt(p, site);
    }
  }

  /** A unit that appears, or changes, on a free block of the grid. */
  lemma RackAdded(p: Plan, id: nat, r: Rack)
    requires RacksFit(p) && id <= p.nextRack && RackFits(p, r)
    requires forall i :: i in p.racks && i != id && p.racks[i].site == r.site ==> p.racks[i].offset != r.offset
    ensures RacksFit(p.(racks := p.racks[id := r], nextRack := if id == p.nextRack then id + 1 else p.nextRack))
  {
    var q := p.(racks := p.racks[id := r], nextRack := if id == p.nextRack then id + 1 else p.nextRack);
    forall i | i in q.racks ensures RackFits(q, q.racks[i]) {
      assert i != id ==> RackFits(p, p.racks[i]);
    }
  }

  /** Sites come and go, and change their pools, without touching any unit. */
  lemma SitesChanged(p: Plan, sites: map<nat, Site>)
    requires RacksFit(p)
    requires forall i :: i in p.racks ==>
               && p.racks[i].site in sites
               && sites[p.racks[i].site].base == p.sites[p.racks[i].site].base
               && sites[p.racks[i].site].step == p.sites[p.racks[i].site].step
    ensures RacksFit(p.(sites := sites))
  {
    var q := p.(sites := sites);
    forall i | i in p.racks ensures RackFits(q, p.racks[i]) {
      assert RackFits(p, p.racks[i]);
      SameGrid(p.racks[i].offset, p.sites[p.racks[i].site], sites[p.racks[i].site]);
    }
  }

  lemma SameGrid(offset: int, a: Site, b: Site)
    requires OnGrid(offset, a) && a.base == b.base && a.step == b.step
    ensures OnGrid(offset, b)
  {
    var k: nat :| offset == Offset(a.base, a.step, k);
    assert offset == Offset(b.base, b.step, k);
  }

  lemma SiteOpStep(p: Plan, op: Op)
    requires RacksFit(p) && (op.CreateSite? || op.UpdateSite? || op.DeleteSite?)
    ensures RacksFit(Step(p, op))
  {
    if Step(p, op) != p {
      assert forall i :: i in p.racks ==> RackFits(p, p.racks[i]);
      SitesChanged(p, Step(p, op).sites);
    }
  }

  lemma CreateRackStep(p: Plan, op: Op)
    requires RacksFit(p) && Automatic(p, op) && op.CreateRack?
    ensures RacksFit(Step(p, op))
  {
    if Step(p, op) != p {
      NextFits(p, op.at, op.offset.value);
      RackAdded(p, p.nextRack, Rack(op.at, op.size, op.offset.value));
    }
  }

  lemma MoveRackStep(p: Plan, op: Op)
    requires RacksFit(p) && Automatic(p, op) && op.MoveRack?
    ensures RacksFit(Step(p, op))
  {
    if Step(p, op) != p {
      NextFits(p, op.to, op.offset.value);
      assert RackFits(p, p.racks[op.rack]);
      RackAdded(p, op.rack, p.racks[op.rack].(site := op.to, offset := op.offset.value));
    }
  }

  lemma ResizeRackStep(p: Plan, op: Op)
    requires RacksFit(p) && op.ResizeRack?
    ensures RacksFit(Step(p, op))
  {
    if Step(p, op) != p {
      assert RackFits(p, p.racks[op.rack]);
      RackAdded(p, op.rack, p.racks[op.rack].(size := if op.size == 0 then p.racks[op.rack].size else op.size));
    }
  }

  /** Fewer units, or the same, in the same sites. */
  lemma FewerRacks(p: Plan, q: Plan)
    requires RacksFit(p) && q.sites == p.sites && q.nextRack == p.nextRack
    requires forall i :: i in q.racks ==> i in p.racks && q.racks[i] == p.racks[i]
    ensures RacksFit(q)
  {
    forall i | i in q.racks ensures RackFits(q, q.racks[i]) {
      assert RackFits(p, p.racks[i]);
    }
  }

  lemma RacksStep(p: Plan, op: Op)
    requires RacksFit(p) && Automatic(p, op)
    ensures RacksFit(Step(p, op))
  {
    match op
    case CreateSite(_, _) => SiteOpStep(p, op);
    case UpdateSite(_, _, _) => SiteOpStep(p, op);
    case DeleteSite(_) => SiteOpStep(p, op);
    case CreateRack(_, _, _) => CreateRackStep(p, op);
    case MoveRack(_, _, _) => MoveRackStep(p, op);
    case ResizeRack(_, _) => ResizeRackStep(p, op);
    case _ => FewerRacks(p, Step(p, op));
  }

  lemma BladesStep(p: Plan, op: Op)
    requires RacksFit(p) && BladesFit(p)
    ensures BladesFit(Step(p, op))
  {
    if op.Place? || op.UpdateBlade? || op.TakeOut? || op.Enrol? || op.Forget? {
      BladeOpStep(p, op);
    } else {
      RackOpStep(p, op);
    }
  }

  lemma BladeOpStep(p: Plan, op: Op)
    requires BladesFit(p)
    requires op.Place? || op.UpdateBlade? || op.TakeOut? || op.Enrol? || op.Forget?
    ensures BladesFit(Step(p, op))
  {
    if op.serial in p.blades {
      if op.Place? {
        var pos := Position(Some(op.rack), Some(op.slot));
        if MayStand(p, op.serial, pos) { StandingKeepsApart(p, op.serial, pos); }
      } else if op.UpdateBlade? {
        var pos := Updated(p.blades[op.serial], op.newRack, op.newSlot);
        if MayStand(p, op.serial, pos) { StandingKeepsApart(p, op.serial, pos); }
      } else if op.TakeOut? {
        StandingKeepsApart(p, op.serial, NOWHERE);
      }
    }
  }

  lemma RackOpStep(p: Plan, op: Op)
    requires RacksFit(p) && BladesFit(p)
    requires !op.Place? && !op.UpdateBlade? && !op.TakeOut? && !op.Enrol? && !op.Forget?
    ensures BladesFit(Step(p, op))
  {
    if Step(p, op) != p {
      match op {
        case CreateRack(site, size, offset) => NewRackKeepsBlades(p, Rack(site, size, offset.value));
        case ResizeRack(rack, size) => ResizeKeepsBlades(p, rack, if size == 0 then p.racks[rack].size else size);
        case _ => RackChangeKeepsBlades(p, Step(p, op));
      }
    }
  }

  /** The units may change as long as every occupied slot stays inside its unit. */
  lemma RackChangeKeepsBlades(p: Plan, q: Plan)
    requires BladesFit(p) && q.blades == p.blades
    requires forall s :: s in p.blades && Placed(p.blades[s]) ==>
               && p.blades[s].rack.value in q.racks
               && p.blades[s].slot.value <= q.racks[p.blades[s].rack.value].size
    ensures BladesFit(q)
  {
  }

  lemma NewRackKeepsBlades(p: Plan, r: Rack)
    requires RacksFit(p) && BladesFit(p)
    ensures BladesFit(p.(racks := p.racks[p.nextRack := r], nextRack := p.nextRack + 1))
  {
    RackChangeKeepsBlades(p, p.(racks := p.racks[p.nextRack := r], nextRack := p.nextRack + 1));
  }

  lemma ResizeKeepsBlades(p: Plan, rack: nat, n: int)
    requires BladesFit(p) && rack in p.racks && (n < p.racks[rack].size ==> Shrinkable(p, rack, n))
    ensures BladesFit(p.(racks := p.racks[rack := p.racks[rack].(size := n)]))
  {
    RackChangeKeepsBlades(p, p.(racks := p.racks[rack := p.racks[rack].(size := n)]));
  }

  lemma StandingKeepsApart(p: Plan, s: string, pos: Position)
    requires BladesFit(p) && s in p.blades && MayStand(p, s, pos)
    ensures BladesFit(p.(blades := p.blades[s := pos]))
  {
    forall t | t in p.blades && t != s && Placed(pos) ensures p.blades[t] != pos {
      assert !Taken(p, pos, s);
    }
  }

  /** Every run of automatic operations keeps the plan: blocks on the site's grid, no block twice, every slot
      inside its unit, no slot twice. */
  lemma {:induction false} PlanAlwaysFits(ops: seq<Op>)
    requires Allocated(ops)
    ensures RacksFit(Run(ops)) && BladesFit(Run(ops))
  {
    if ops != [] {
      var p := Run(ops[..|ops| - 1]);
      PlanAlwaysFits(ops[..|ops| - 1]);
      RacksStep(p, ops[|ops| - 1]);
      BladesStep(p, ops[|ops| - 1]);
    }
  }

  // ---- Addresses ----

  /** decorate: the host number a blade is given, if it is given one. */
  function Host(p: Plan, s: string): (h: Option<int>)
    requires s in p.blades
    ensures h.Some? ==>
              && Placed(p.blades[s]) && p.blades[s].rack.value in p.racks
              && InSpan(p.racks[p.blades[s].rack.value], h.value)
  {
    var pos := p.blades[s];
    if pos.rack.Some? && pos.slot.Some? && pos.rack.value in p.racks
       && ValidSlot(p.racks[pos.rack.value].size, pos.slot.value)
    then Some(p.racks[pos.rack.value].offset + pos.slot.value)
    else None
  }

  function SiteOf(p: Plan, s: string): Option<nat>
    requires s in p.blades
  {
    var pos := p.blades[s];
    if pos.rack.Some? && pos.slot.Some? && pos.rack.value in p.racks then Some(p.racks[pos.rack.value].site) else None
  }

  /** Two units of the largest size can overlap at a site: its step, up or down, is smaller than that, and two blocks
      fit before the allocator gives up. */
  predicate BlocksCanOverlap(base: int, step: int) {
    && (0 < step < 20 || -20 < step < 0)
    && base + step <= LIMIT && base + 2 * step <= LIMIT
  }

  /** Two different blocks of one grid are on it because a second one fits, and lie a whole step apart. */
  lemma BlocksApart(a: int, b: int, st: Site)
    requires OnGrid(a, st) && OnGrid(b, st) && a < b
    requires a + st.step <= LIMIT && b + st.step <= LIMIT && st.base + st.step <= LIMIT
    ensures st.step != 0 && a + (if st.step > 0 then st.step else -st.step) <= b
    ensures st.base + 2 * st.step <= LIMIT
  {
    var j: nat :| a == Offset(st.base, st.step, j);
    var k: nat :| b == Offset(st.base, st.step, k);
    TurnsApart(st.base, st.step, j, k);
  }

  /** The same by turns of the allocator: a higher block comes later where the step goes up, earlier where it goes
      down. */
  lemma TurnsApart(base: int, step: int, j: nat, k: nat)
    requires Offset(base, step, j) < Offset(base, step, k)
    requires Offset(base, step, k) + step <= LIMIT && base + step <= LIMIT
    ensures step != 0 && Offset(base, step, j) + (if step > 0 then step else -step) <= Offset(base, step, k)
    ensures base + 2 * step <= LIMIT
  {
    if step > 0 {
      assert j < k by { if k <= j { ProductGrows(k, j, step); } }
      Upwards(base, step, j, k);
    } else if step < 0 {
      assert k < j by { if j <= k { ProductGrows(j, k, -step); } }
      Upwards(base, -step, k, j);
      assert k * step == -(k * -step) && j * step == -(j * -step);
    }
  }

  lemma Upwards(base: int, step: int, j: nat, k: nat)
    requires j < k && step > 0
    ensures j * step + step <= k * step && step <= k * step
  {
    ProductGrows(j + 1, k, step);
    assert (j + 1) * step == j * step + step;
    ProductGrows(0, j, step);
  }

  /** In every run no two blades of a site have the same address unless its blocks can overlap; and where the blocks are
      as large as the largest unit no host number exceeds the limit. */
  lemma NoSharedAddress(ops: seq<Op>, s: string, t: string)
    requires Allocated(ops) && s in Run(ops).blades && t in Run(ops).blades && s != t
    requires Host(Run(ops), s).Some? && SiteOf(Run(ops), s) == SiteOf(Run(ops), t)
    ensures SiteOf(Run(ops), s).value in Run(ops).sites
    ensures var st := Run(ops).sites[SiteOf(Run(ops), s).value];
            && (Host(Run(ops), s) == Host(Run(ops), t) ==> BlocksCanOverlap(st.base, st.step))
            && (st.step >= 20 ==> Host(Run(ops), s).value <= 250)
  {
    PlanAlwaysFits(ops);
    FittingPlanSharesNothing(Run(ops), s, t);
  }

  lemma FittingPlanSharesNothing(p: Plan, s: string, t: string)
    requires RacksFit(p) && BladesFit(p) && s in p.blades && t in p.blades && s != t
    requires Host(p, s).Some? && SiteOf(p, s) == SiteOf(p, t)
    ensures SiteOf(p, s).value in p.sites
    ensures var st := p.sites[SiteOf(p, s).value];
            && (Host(p, s) == Host(p, t) ==> BlocksCanOverlap(st.base, st.step))
            && (st.step >= 20 ==> Host(p, s).value <= 250)
  {
    var a := p.racks[p.blades[s].rack.value];
    assert RackFits(p, a);
    if Host(p, t).Some? {
      var b := p.racks[p.blades[t].rack.value];
      assert RackFits(p, b);
      if a.offset < b.offset {
        BlocksApart(a.offset, b.offset, p.sites[a.site]);
      } else if b.offset < a.offset {
        BlocksApart(b.offset, a.offset, p.sites[a.site]);
      } else {
        assert p.blades[s].rack == p.blades[t].rack;
        assert p.blades[s] != p.blades[t];
      }
    }
  }

  /** Every host number of a unit's span belongs to exactly one of its slots: the blade there, and no other in the unit,
      has it. */
  lemma EveryNumberHasItsSlot(p: Plan, rack: nat, h: int)
    requires rack in p.racks && InSpan(p.racks[rack], h)
    ensures var slot := h - p.racks[rack].offset;
            && ValidSlot(p.racks[rack].size, slot)
            && forall s :: s in p.blades && p.blades[s].rack == Some(rack) ==>
                 (Host(p, s) == Some(h) <==> p.blades[s].slot == Some(slot))
  {
  }

  /** The first slot has the first number of the span, the last the last, and higher slots have higher numbers. */
  lemma SlotsInOrder(p: Plan, s: string, t: string)
    requires s in p.blades && t in p.blades && Host(p, s).Some? && Host(p, t).Some?
    requires p.blades[s].rack == p.blades[t].rack && p.blades[s].slot.value < p.blades[t].slot.value
    ensures Host(p, t).value - Host(p, s).value == p.blades[t].slot.value - p.blades[s].slot.value
  {
  }

  /** The units of a site, each once, under these numbers. */
  ghost predicate UnitsOf(p: Plan, site: nat, ids: seq<nat>, racks: seq<Rack>) {
    && |ids| == |racks| && (forall k :: 0 <= k < |ids| ==> ids[k] in p.racks && racks[k] == p.racks[ids[k]])
    && (forall k, l :: 0 <= k < l < |ids| ==> ids[k] != ids[l])
    && (forall i :: i in p.racks && p.racks[i].site == site ==> i in ids)
  }

  /** Where the checker finds nothing to say about a site's units, however their blocks came about, no blade of the site
      has a number in the pool, past 254, or that another blade of the site has. */
  lemma SilenceMeansAddressesAreApart(p: Plan, site: nat, ids: seq<nat>, racks: seq<Rack>, s: string, t: string)
    requires BladesFit(p) && site in p.sites && UnitsOf(p, site, ids, racks) &&
             p.sites[site].poolFrom <= p.sites[site].poolTo
    requires forall k :: 0 <= k < |racks| ==> Fine(racks[k], p.sites[site])
    requires forall k, l :: 0 <= k < l < |racks| ==> Apart(racks[k], racks[l])
    requires s in p.blades && t in p.blades && s != t && SiteOf(p, s) == SiteOf(p, t) == Some(site) && Host(p, s).Some?
    ensures Host(p, s).value <= 254 && !(p.sites[site].poolFrom <= Host(p, s).value <= p.sites[site].poolTo)
    ensures Host(p, s) != Host(p, t)
  {
    var a := p.blades[s].rack.value;
    assert a in ids;
    var k :| 0 <= k < |ids| && ids[k] == a;
    assert Fine(racks[k], p.sites[site]);
    if Host(p, t).Some? {
      var b := p.blades[t].rack.value;
      assert b in ids;
      var l :| 0 <= l < |ids| && ids[l] == b;
      SilenceMakesHostsUnique(p.sites[site], racks, k, p.blades[s].slot.value, l, p.blades[t].slot.value);
      assert p.blades[s] != p.blades[t];
    }
  }

  /** Every unit of every run has one of the four sizes there are. */
  lemma UnitsHaveKnownSizes(ops: seq<Op>, rack: nat)
    requires Allocated(ops) && rack in Run(ops).racks
    ensures Run(ops).racks[rack].size in {2, 4, 10, 20}
  {
    PlanAlwaysFits(ops);
    assert RackFits(Run(ops), Run(ops).racks[rack]);
  }

  /** hBladeUpdate: nothing sent changes nothing, zeros take the blade out, and a position sent is where it goes. */
  lemma UpdatingMeans(pos: Position, rack: nat, slot: int)
    ensures Updated(pos, None, None) == pos && Updated(pos, Some(0), Some(0)) == NOWHERE
    ensures rack != 0 && slot != 0 ==> Updated(pos, Some(rack), Some(slot)) == Position(Some(rack), Some(slot))
    ensures rack != 0 ==> Updated(pos, Some(rack), None) == Position(Some(rack), pos.slot)
    ensures slot != 0 ==> Updated(pos, None, Some(slot)) == Position(pos.rack, Some(slot))
  {
  }

  // ---- Which blocks a run can reach ----

  /** The k-th block of the grid can be handed out: the allocator gets that far. */
  predicate BlockFits(base: int, step: int, k: nat) {
    base + step <= LIMIT && Offset(base, step, k) + step <= LIMIT && (step == 0 ==> k == 0)
  }

  lemma EarlierBlocksFit(base: int, step: int, j: nat, k: nat)
    requires j < k && BlockFits(base, step, k)
    ensures BlockFits(base, step, j) && Offset(base, step, j) != Offset(base, step, k)
  {
    if step > 0 {
      ProductGrows(j + 1, k, step);
    } else {
      ProductGrows(0, j, -step);
      ProductGrows(j + 1, k, -step);
    }
  }

  /** A site, and then n units of the largest size, one after the other. */
  function FilledRacks(st: Site, n: nat): map<nat, Rack> {
    if n == 0 then map[] else FilledRacks(st, n - 1)[n := Rack(1, 20, Offset(st.base, st.step, n - 1))]
  }

  function Filled(st: Site, n: nat): Plan {
    Plan(map[1 := st], FilledRacks(st, n), map[], n + 1)
  }

  lemma {:induction false} FilledUses(st: Site, n: nat)
    ensures forall i :: i in FilledRacks(st, n) <==> 1 <= i <= n
    ensures forall i :: 1 <= i <= n ==> FilledRacks(st, n)[i] == Rack(1, 20, Offset(st.base, st.step, i - 1))
  {
    if n > 0 { FilledUses(st, n - 1); }
  }

  /** With n units standing the allocator hands out block n. */
  lemma NextAfterFilled(st: Site, n: nat)
    requires BlockFits(st.base, st.step, n)
    ensures IsNext(UsedAt(Filled(st, n), 1), st.base, st.step, Some(Offset(st.base, st.step, n)))
  {
    var p := Filled(st, n);
    var used := UsedAt(p, 1);
    FilledUses(st, n);
    forall j: nat | j < n
      ensures !Stops(used, st.base, st.step, j) && Offset(st.base, st.step, j) != Offset(st.base, st.step, n) {
      EarlierBlocksFit(st.base, st.step, j, n);
      assert p.racks[j + 1].offset == Offset(st.base, st.step, j);
      assert Offset(st.base, st.step, j) in used;
    }
    forall x | x in used ensures x != Offset(st.base, st.step, n) {
      var i :| i in p.racks && p.racks[i].site == 1 && p.racks[i].offset == x;
      assert x == Offset(st.base, st.step, i - 1);
    }
    assert Stops(used, st.base, st.step, n);
  }

  lemma Appended(ops: seq<Op>, op: Op)
    requires Allocated(ops) && Automatic(Run(ops), op)
    ensures Allocated(ops + [op]) && Run(ops + [op]) == Step(Run(ops), op)
  {
    assert (ops + [op])[..|ops|] == ops;
  }

  lemma OneMoreUnit(st: Site, n: nat, op: Op)
    requires op == CreateRack(1, 20, Some(Offset(st.base, st.step, n)))
    ensures Step(Filled(st, n), op) == Filled(st, n + 1)
  {
  }

  lemma FillMore(st: Site, ops: seq<Op>, n: nat, op: Op)
    requires Allocated(ops) && Run(ops) == Filled(st, n) && BlockFits(st.base, st.step, n)
    requires op == CreateRack(1, 20, Some(Offset(st.base, st.step, n)))
    ensures Allocated(ops + [op]) && Run(ops + [op]) == Filled(st, n + 1)
  {
    NextAfterFilled(st, n);
    assert Automatic(Filled(st, n), op);
    Appended(ops, op);
    OneMoreUnit(st, n, op);
  }

  lemma FillStart(st: Site)
    requires PoolValid(st.poolFrom, st.poolTo)
    ensures Allocated([CreateSite(1, st)]) && Run([CreateSite(1, st)]) == Filled(st, 0)
  {
    assert [CreateSite(1, st)][..0] == [];
    assert Run([]) == EMPTY && Allocated([]);
    assert Run([CreateSite(1, st)]) == Step(EMPTY, CreateSite(1, st));
  }

  /** Every block that fits is handed out by some run. */
  lemma {:induction false} FillReaches(st: Site, n: nat) returns (ops: seq<Op>)
    requires PoolValid(st.poolFrom, st.poolTo) && (n > 0 ==> BlockFits(st.base, st.step, n - 1))
    ensures Allocated(ops) && Run(ops) == Filled(st, n)
  {
    if n == 0 {
      FillStart(st);
      ops := [CreateSite(1, st)];
    } else {
      if n > 1 { EarlierBlocksFit(st.base, st.step, n - 2, n - 1); }
      var front := FillReaches(st, n - 1);
      var op := CreateRack(1, 20, Some(Offset(st.base, st.step, n - 1)));
      FillMore(st, front, n - 1, op);
      ops := front + [op];
    }
  }

  // ---- Exactly when addresses can be shared ----

  /** The plan has two blades with one host number at a site with this base and step. */
  predicate Shares(p: Plan, base: int, step: int) {
    exists s, t ::
      && s in p.blades && t in p.blades && s != t
      && SiteOf(p, s).Some? && SiteOf(p, s) == SiteOf(p, t) && SiteOf(p, s).value in p.sites
      && p.sites[SiteOf(p, s).value].base == base && p.sites[SiteOf(p, s).value].step == step
      && Host(p, s).Some? && Host(p, s) == Host(p, t)
  }

  /** Two units, then a blade in each, in the slots whose numbers meet. */
  lemma OverlapReached(base: int, step: int) returns (ops: seq<Op>)
    requires BlocksCanOverlap(base, step)
    ensures Allocated(ops) && Shares(Run(ops), base, step)
  {
    var st := Site(base, step, 210, 240);
    assert Offset(base, step, 1) == base + step && Offset(base, step, 0) == base;
    ops := FillReaches(st, 2);
    FilledUses(st, 2);
    var m, n := if step > 0 then step + 1 else 1, if step > 0 then 1 else 1 - step;
    ops := BladesPlaced(ops, Filled(st, 2), m, n);
    MeetingSlots(Run(ops), st, m, n);
  }

  lemma MeetingSlots(p: Plan, st: Site, m: int, n: int)
    requires p.sites == map[1 := st] && 1 in p.racks && p.racks[1] == Rack(1, 20, st.base)
    requires 2 in p.racks && p.racks[2] == Rack(1, 20, st.base + st.step)
    requires p.blades == map["a" := Position(Some(1), Some(m)), "b" := Position(Some(2), Some(n))]
    requires 1 <= m <= 20 && 1 <= n <= 20 && m == st.step + n
    ensures Shares(p, st.base, st.step)
  {
    assert "a" != "b";
    assert "a" in p.blades && "b" in p.blades;
    assert Host(p, "a") == Some(st.base + m) && Host(p, "b") == Some(st.base + st.step + n);
    assert SiteOf(p, "a") == SiteOf(p, "b") == Some(1);
  }

  lemma BladesPlaced(before: seq<Op>, p: Plan, m: int, n: int) returns (ops: seq<Op>)
    requires Allocated(before) && Run(before) == p && p.blades == map[] && 1 <= m <= 20 && 1 <= n <= 20
    requires 1 in p.racks && p.racks[1].size == 20 && 2 in p.racks && p.racks[2].size == 20
    ensures Allocated(ops)
    ensures Run(ops) == p.(blades := map["a" := Position(Some(1), Some(m)), "b" := Position(Some(2), Some(n))])
  {
    assert "a" != "b";
    Appended(before, Enrol("a"));
    ops := before + [Enrol("a")];
    Appended(ops, Enrol("b"));
    ops := ops + [Enrol("b")];
    var q := p.(blades := map["a" := NOWHERE, "b" := NOWHERE]);
    assert Run(ops) == q;
    Appended(ops, Place("a", 1, m));
    ops := ops + [Place("a", 1, m)];
    FirstPlaced(q, m);
    Appended(ops, Place("b", 2, n));
    ops := ops + [Place("b", 2, n)];
    SecondPlaced(Step(q, Place("a", 1, m)), m, n);
  }

  lemma FirstPlaced(q: Plan, m: int)
    requires q.blades == map["a" := NOWHERE, "b" := NOWHERE] && 1 in q.racks && ValidSlot(q.racks[1].size, m)
    ensures Step(q, Place("a", 1, m)) == q.(blades := map["a" := Position(Some(1), Some(m)), "b" := NOWHERE])
  {
    assert !Taken(q, Position(Some(1), Some(m)), "a");
  }

  lemma SecondPlaced(q: Plan, m: int, n: int)
    requires q.blades == map["a" := Position(Some(1), Some(m)), "b" := NOWHERE] && 2 in q.racks &&
             ValidSlot(q.racks[2].size, n)
    ensures Step(q, Place("b", 2, n)) ==
            q.(blades := map["a" := Position(Some(1), Some(m)), "b" := Position(Some(2), Some(n))])
  {
    assert !Taken(q, Position(Some(2), Some(n)), "b");
    assert "a" != "b";
  }

  /** Some run lets two blades of a site with this base and step share an address exactly if its blocks can overlap. */
  lemma SharedAddressIff(base: int, step: int)
    ensures (exists ops :: Allocated(ops) && Shares(Run(ops), base, step)) <==> BlocksCanOverlap(base, step)
  {
    if BlocksCanOverlap(base, step) {
      var ops := OverlapReached(base, step);
    }
    if ops :| Allocated(ops) && Shares(Run(ops), base, step) {
      var p := Run(ops);
      var s, t :| && s in p.blades && t in p.blades && s != t
                  && SiteOf(p, s).Some? && SiteOf(p, s) == SiteOf(p, t) && SiteOf(p, s).value in p.sites
                  && p.sites[SiteOf(p, s).value].base == base && p.sites[SiteOf(p, s).value].step == step
                  && Host(p, s).Some? && Host(p, s) == Host(p, t);
      NoSharedAddress(ops, s, t);
    }
  }

  // ---- The overlap checker ----

  datatype Warning = PastTheEnd(rack: int) | InPool(rack: int) | Overlap(a: int, b: int)

  /** The host numbers a unit can hand out. */
  predicate InSpan(r: Rack, host: int) {
    r.offset + 1 <= host <= r.offset + r.size
  }

  /** What checkSite tests of one unit. */
  predicate Fine(r: Rack, st: Site) {
    r.offset + r.size <= 254 && ClearsPool(r, st)
  }

  predicate ClearsPool(r: Rack, st: Site) {
    !(r.offset + 1 <= st.poolTo && r.offset + r.size >= st.poolFrom)
  }

  predicate Apart(a: Rack, b: Rack) {
    !(a.offset + 1 <= b.offset + b.size && b.offset + 1 <= a.offset + a.size)
  }

  /** checkSite on the units of one site. */
  method CheckSite(st: Site, racks: seq<Rack>) returns (warn: seq<Warning>)
    ensures forall w :: w in warn <==> Deserved(st, racks, w)
    ensures warn == [] <==>
            && (forall i :: 0 <= i < |racks| ==> Fine(racks[i], st))
            && (forall i, j :: 0 <= i < j < |racks| ==> Apart(racks[i], racks[j]))
  {
    warn := [];
    var i := 0;
    while i < |racks|
      invariant 0 <= i <= |racks|
      invariant forall w :: w in warn <==> !w.Overlap? && w.rack < i && Deserved(st, racks, w)
    {
      var lo, hi := racks[i].offset + 1, racks[i].offset + racks[i].size;
      if hi > 254 {
        warn := warn + [PastTheEnd(i)];
      }
      if lo <= st.poolTo && hi >= st.poolFrom {
        warn := warn + [InPool(i)];
      }
      i := i + 1;
    }
    i := 0;
    while i < |racks|
      invariant 0 <= i <= |racks|
      invariant forall w :: w in warn <==> Deserved(st, racks, w) && (w.Overlap? ==> w.a < i)
    {
      var j := i + 1;
      while j < |racks|
        invariant i < j <= |racks|
        invariant forall w :: w in warn <==>
                    Deserved(st, racks, w) && (w.Overlap? ==> w.a < i || (w.a == i && w.b < j))
      {
        if racks[i].offset + 1 <= racks[j].offset + racks[j].size &&
            racks[j].offset + 1 <= racks[i].offset + racks[i].size {
          warn := warn + [Overlap(i, j)];
        }
        j := j + 1;
      }
      i := i + 1;
    }
    SilentIff(st, racks, warn);
  }

  /** Each warning is about a unit past the end, a unit in the pool, or two units with a number in common. */
  predicate Deserved(st: Site, racks: seq<Rack>, w: Warning) {
    match w
    case PastTheEnd(i) => 0 <= i < |racks| && racks[i].offset + racks[i].size > 254
    case InPool(i) => 0 <= i < |racks| && !ClearsPool(racks[i], st)
    case Overlap(i, j) => 0 <= i < j < |racks| && !Apart(racks[i], racks[j])
  }

  lemma SilentIff(st: Site, racks: seq<Rack>, warn: seq<Warning>)
    requires forall w :: w in warn <==> Deserved(st, racks, w)
    ensures warn == [] <==>
            && (forall i :: 0 <= i < |racks| ==> Fine(racks[i], st))
            && (forall i, j :: 0 <= i < j < |racks| ==> Apart(racks[i], racks[j]))
  {
    if warn == [] {
      forall i | 0 <= i < |racks| ensures Fine(racks[i], st) {
        assert !Deserved(st, racks, PastTheEnd(i)) && !Deserved(st, racks, InPool(i));
      }
      forall i, j | 0 <= i < j < |racks| ensures Apart(racks[i], racks[j]) {
        assert !Deserved(st, racks, Overlap(i, j));
      }
    } else {
      assert warn[0] in warn && Deserved(st, racks, warn[0]);
    }
  }

  /** The two tests mean what they should: no host number past 254, in the pool, or in two units. */
  lemma TestsMean(a: Rack, b: Rack, st: Site)
    requires a.size > 0 && b.size > 0 && st.poolFrom <= st.poolTo
    ensures Fine(a, st) <==> forall h :: InSpan(a, h) ==> h <= 254 && !(st.poolFrom <= h <= st.poolTo)
    ensures Apart(a, b) <==> forall h :: !(InSpan(a, h) && InSpan(b, h))
  {
    if !Fine(a, st) {
      var hi := a.offset + a.size;
      assert InSpan(a, hi);
      var h := if a.offset + 1 > st.poolFrom then a.offset + 1 else st.poolFrom;
      if hi <= 254 { assert InSpan(a, h); }
    }
    if !Apart(a, b) {
      var h := if a.offset > b.offset then a.offset + 1 else b.offset + 1;
      assert InSpan(a, h) && InSpan(b, h);
    }
  }

  /** A silent checker makes (unit, slot) to host number one to one, and keeps it out of the pool. */
  lemma SilenceMakesHostsUnique(st: Site, racks: seq<Rack>, i: nat, m: int, j: nat, n: int)
    requires st.poolFrom <= st.poolTo && i < |racks| && j < |racks|
    requires ValidSlot(racks[i].size, m) && ValidSlot(racks[j].size, n)
    requires forall k :: 0 <= k < |racks| ==> Fine(racks[k], st)
    requires forall k, l :: 0 <= k < l < |racks| ==> Apart(racks[k], racks[l])
    ensures racks[i].offset + m == racks[j].offset + n ==> i == j && m == n
    ensures racks[i].offset + m <= 254 && !(st.poolFrom <= racks[i].offset + m <= st.poolTo)
  {
    assert Fine(racks[i], st);
    if i < j { assert Apart(racks[i], racks[j]); }
    if j < i { assert Apart(racks[j], racks[i]); }
  }

  // ---- Exactly when a unit can land in the pool ----

  /** A unit of some site with this row reaches into the site's pool. */
  predicate InOwnPool(p: Plan, st: Site) {
    exists i ::
        i in p.racks && p.racks[i].site in p.sites && p.sites[p.racks[i].site] == st && !ClearsPool(p.racks[i], st)
  }

  /** A block of the site's grid that fits below the limit reaches into its pool. */
  ghost predicate GridMeetsPool(st: Site) {
    exists k: nat :: BlockFits(st.base, st.step, k) && !ClearsPool(Rack(1, 20, Offset(st.base, st.step, k)), st)
  }

  /** The allocator does not look at the pool: some run puts a unit into it exactly if some block of the grid that fits
      below the limit meets it. */
  lemma PoolIsMetIff(st: Site)
    requires PoolValid(st.poolFrom, st.poolTo)
    ensures (exists ops :: MeetsPool(ops, st)) <==> GridMeetsPool(st)
  {
    if GridMeetsPool(st) {
      var ops := PoolReached(st);
      assert MeetsPool(ops, st);
    }
    if ops :| MeetsPool(ops, st) {
      PlanAlwaysFits(ops);
      UnitInPoolIsOnGrid(Run(ops), st);
    }
  }

  ghost predicate MeetsPool(ops: seq<Op>, st: Site) {
    Allocated(ops) && InOwnPool(Run(ops), st)
  }

  lemma PoolReached(st: Site) returns (ops: seq<Op>)
    requires PoolValid(st.poolFrom, st.poolTo) && GridMeetsPool(st)
    ensures MeetsPool(ops, st)
  {
    var k: nat :| BlockFits(st.base, st.step, k) && !ClearsPool(Rack(1, 20, Offset(st.base, st.step, k)), st);
    ops := FillReaches(st, k + 1);
    FilledUses(st, k + 1);
    assert Filled(st, k + 1).racks[k + 1] == Rack(1, 20, Offset(st.base, st.step, k));
  }

  lemma UnitInPoolIsOnGrid(p: Plan, st: Site)
    requires RacksFit(p) && InOwnPool(p, st)
    ensures GridMeetsPool(st)
  {
    var i :| i in p.racks && p.racks[i].site in p.sites && p.sites[p.racks[i].site] == st &&
        !ClearsPool(p.racks[i], st);
    assert RackFits(p, p.racks[i]);
    var k: nat :| p.racks[i].offset == Offset(st.base, st.step, k);
    BlockOf(st, k);
    var n: nat := if st.step == 0 then 0 else k;
    assert BlockFits(st.base, st.step, n);
    assert !ClearsPool(Rack(1, 20, Offset(st.base, st.step, n)), st);
  }

  lemma BlockOf(st: Site, k: nat)
    ensures st.step == 0 ==> Offset(st.base, st.step, k) == Offset(st.base, st.step, 0) == st.base
  {
  }

  /** The site the program creates by itself is such a site. */
  lemma DefaultSiteMeetsItsPool()
    ensures GridMeetsPool(Site(100, 20, 210, 240))
  {
    assert Offset(100, 20, 5) == 200;
    assert BlockFits(100, 20, 5);
  }

  // ---- As it runs ----

  class PlanDb {
    var plan: Plan

    ghost predicate Valid()
      reads this
    {
      RacksFit(plan) && BladesFit(plan) && forall i :: i in plan.sites ==> plan.sites[i].step != 0
    }

    constructor ()
      ensures Valid() && plan == EMPTY
    {
      plan := EMPTY;
    }

    /** hUIRackCreate: a new unit on the next free block of the site. */
    method CreateRackAt(site: nat, size: int) returns (ghost offset: Option<int>)
      requires Valid()
      modifies this
      ensures Valid()
      ensures Automatic(old(plan), CreateRack(site, size, offset))
      ensures plan == Step(old(plan), CreateRack(site, size, offset))
      ensures offset.Some? && size in {2, 4, 10, 20} ==>
                plan.racks == old(plan.racks)[old(plan.nextRack) := Rack(site, size, offset.value)]
    {
      offset := None;
      if site !in plan.sites {
        return;
      }
      var st := plan.sites[site];
      var off := NextRackOffset(UsedAt(plan, site), st.base, st.step);
      offset := off;
      RacksStep(plan, CreateRack(site, size, off));
      BladesStep(plan, CreateRack(site, size, off));
      if ValidSize(size) && off.Some? {
        plan := plan.(racks := plan.racks[plan.nextRack := Rack(site, size, off.value)], nextRack := plan.nextRack + 1);
      }
    }

    /** moveRack: the block is taken fresh at the destination. */
    method MoveRackTo(rack: nat, to: nat) returns (ok: bool, ghost offset: Option<int>)
      requires Valid()
      modifies this
      ensures Valid()
      ensures Automatic(old(plan), MoveRack(rack, to, offset))
      ensures plan == Step(old(plan), MoveRack(rack, to, offset))
      ensures ok ==> rack in plan.racks && rack in old(plan.racks) && plan.racks[rack].site == to
                     && plan.racks[rack].size == old(plan.racks[rack].size)
      ensures ok && old(plan.racks[rack].site) != to ==> offset == Some(plan.racks[rack].offset)
    {
      offset := None;
      if to !in plan.sites {
        return false, offset;
      }
      var st := plan.sites[to];
      var off := NextRackOffset(UsedAt(plan, to), st.base, st.step);
      offset := off;
      if rack !in plan.racks {
        return false, offset;
      }
      if plan.racks[rack].site == to {
        return true, offset;
      }
      if off.None? {
        return false, offset;
      }
      RacksStep(plan, MoveRack(rack, to, off));
      BladesStep(plan, MoveRack(rack, to, off));
      plan := plan.(racks := plan.racks[rack := plan.racks[rack].(site := to, offset := off.value)]);
      return true, offset;
    }

    /** maxOccupiedSlot: the highest slot a blade holds in the unit, or 0. */
    method MaxOccupiedSlot(rack: nat) returns (max: int)
      ensures max >= 0 && Shrinkable(plan, rack, max)
      ensures max == 0 || exists t :: InRack(plan, rack, t) && plan.blades[t].slot.value == max
    {
      max := 0;
      var todo := plan.blades.Keys;
      while todo != {}
        invariant todo <= plan.blades.Keys && max >= 0
        invariant forall t :: InRack(plan, rack, t) && t !in todo ==> plan.blades[t].slot.value <= max
        invariant max == 0 || exists t :: InRack(plan, rack, t) && plan.blades[t].slot.value == max
        decreases |todo|
      {
        var s :| s in todo;
        todo := todo - {s};
        var pos := plan.blades[s];
        if pos.rack == Some(rack) && pos.slot.Some? && pos.slot.value > max {
          max := pos.slot.value;
          assert InRack(plan, rack, s);
        }
      }
      assert forall t :: t in plan.blades && plan.blades[t].rack == Some(rack) && plan.blades[t].slot.Some? ==>
             InRack(plan, rack, t);
    }

    /** updateRack: shrinking is refused while a blade sits in a slot that would disappear. */
    method ResizeRackTo(rack: nat, size: int) returns (ok: bool)
      requires Valid()
      modifies this
      ensures Valid()
      ensures plan == Step(old(plan), ResizeRack(rack, size))
      ensures ok ==>
              rack in plan.racks && rack in old(plan.racks) && plan.racks[rack].offset == old(plan.racks[rack].offset)
                     && plan.racks[rack].size == if size == 0 then old(plan.racks[rack].size) else size
      ensures !ok ==> plan == old(plan)
    {
      RacksStep(plan, ResizeRack(rack, size));
      BladesStep(plan, ResizeRack(rack, size));
      if rack !in plan.racks {
        return false;
      }
      var n := if size == 0 then plan.racks[rack].size else size;
      if !ValidSize(n) {
        return false;
      }
      if n < plan.racks[rack].size {
        var max := MaxOccupiedSlot(rack);
        if max > n {
          return false;
        }
      }
      plan := plan.(racks := plan.racks[rack := plan.racks[rack].(size := n)]);
      return true;
    }

    /** placeBlade: unit there, slot inside it, slot free. */
    method PlaceBlade(s: string, rack: nat, slot: int) returns (ok: bool)
      requires Valid()
      modifies this
      ensures Valid()
      ensures plan == Step(old(plan), Place(s, rack, slot))
      ensures ok ==>
              s in plan.blades && Host(plan, s).Some? && rack in plan.racks && plan.racks[rack].site in plan.sites
      ensures ok ==> plan.blades[s] == Position(Some(rack), Some(slot))
      ensures ok && plan.sites[plan.racks[rack].site].step >= 20 ==> Host(plan, s).value <= 250
      ensures !ok ==> plan == old(plan)
    {
      BladesStep(plan, Place(s, rack, slot));
      RacksStep(plan, Place(s, rack, slot));
      if s !in plan.blades || rack !in plan.racks {
        return false;
      }
      if slot < 1 || slot > plan.racks[rack].size {
        return false;
      }
      var pos := Position(Some(rack), Some(slot));
      if Taken(plan, pos, s) {
        return false;
      }
      assert RackFits(plan, plan.racks[rack]);
      plan := plan.(blades := plan.blades[s := pos]);
      return true;
    }
  }
}
