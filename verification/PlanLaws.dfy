/** Where every entry of the address plan comes from: when an operation is accepted, in terms of the entries it finds,
    and what each entry then says about the whole run (server/db.go, server/api.go). */
module PlanLaws {
  import opened Wrappers
  import opened AddressPlan
  import Latch

  // ---- When an operation is accepted ----

  /** createSite and updateSite want a pool in order, above the network's own number and below its broadcast. */
  ghost predicate PoolGiven(from: int, to: int) {
    1 <= from && from + 1 <= to && to <= 254
  }

  ghost predicate NewSite(p: Plan, op: Op, id: nat) {
    op.CreateSite? && op.id == id && id !in p.sites && PoolGiven(op.site.poolFrom, op.site.poolTo)
  }

  ghost predicate NewPool(p: Plan, op: Op, id: nat) {
    op.UpdateSite? && op.id == id && id in p.sites && PoolGiven(op.poolFrom, op.poolTo)
  }

  /** A site goes when no unit stands there and it is not the last one. */
  ghost predicate SiteGoes(p: Plan, op: Op, id: nat) {
    && op == DeleteSite(id) && id in p.sites
    && (forall i :: i in p.racks ==> p.racks[i].site != id)
    && p.sites.Keys != {id}
  }

  ghost predicate SizeGiven(n: int) {
    n in {2, 4, 10, 20}
  }

  ghost predicate NewUnit(p: Plan, op: Op, rack: nat) {
    op.CreateRack? && rack == p.nextRack && op.at in p.sites && SizeGiven(op.size) && op.offset.Some?
  }

  /** A unit moves only to another site, and only if that has a block left. */
  ghost predicate UnitMoves(p: Plan, op: Op, rack: nat) {
    op.MoveRack? && op.rack == rack && rack in p.racks && op.to in p.sites && op.to != p.racks[rack].site &&
        op.offset.Some?
  }

  /** A new size is one that exists, and big enough for every blade with a slot here; zero asks for no change. */
  ghost predicate NewSize(p: Plan, op: Op, rack: nat) {
    && op.ResizeRack? && op.rack == rack && rack in p.racks && SizeGiven(op.size)
    && (op.size >= p.racks[rack].size || forall t :: InRack(p, rack, t) ==> p.blades[t].slot.value <= op.size)
  }

  /** A unit goes when no blade is assigned to it, with a slot or without. */
  ghost predicate UnitGoes(p: Plan, op: Op, rack: nat) {
    op == DeleteRack(rack) && rack in p.racks && forall t :: t in p.blades ==> p.blades[t].rack != Some(rack)
  }

  /** The slot is one of the unit's and no other blade has it. */
  ghost predicate Open(p: Plan, s: string, rack: nat, slot: int) {
    && rack in p.racks && 1 <= slot <= p.racks[rack].size
    && forall t :: t in p.blades && p.blades[t] == Position(Some(rack), Some(slot)) ==> t == s
  }

  ghost predicate Places(p: Plan, op: Op, s: string) {
    op.Place? && op.serial == s && s in p.blades && Open(p, s, op.rack, op.slot)
  }

  /** An update is accepted if it leaves the blade without unit or slot, or in an open slot. */
  ghost predicate Updates(p: Plan, op: Op, s: string) {
    && op.UpdateBlade? && op.serial == s && s in p.blades
    && var rack := if op.newRack == None then p.blades[s].rack else if op.newRack == Some(0) then None else op.newRack;
       var slot := if op.newSlot == None then p.blades[s].slot else if op.newSlot == Some(0) then None else op.newSlot;
       rack.Some? && slot.Some? ==> Open(p, s, rack.value, slot.value)
  }

  // ---- Facts ----

  datatype Fact =
    | Known(serial: string)
    | InUnit(serial: string, rack: nat)
    | InSlot(serial: string, slot: int)
    | UnitAt(rack: nat, site: nat)
    | UnitFrom(rack: nat, offset: int)
    | UnitOf(rack: nat, size: int)
    | SiteOnGrid(site: nat, base: int, step: int)
    | SitePool(site: nat, from: int, to: int)

  ghost predicate Says(p: Plan, f: Fact) {
    match f
    case Known(s) => s in p.blades
    case InUnit(s, rack) => s in p.blades && p.blades[s].rack == Some(rack)
    case InSlot(s, slot) => s in p.blades && p.blades[s].slot == Some(slot)
    case UnitAt(rack, site) => rack in p.racks && p.racks[rack].site == site
    case UnitFrom(rack, offset) => rack in p.racks && p.racks[rack].offset == offset
    case UnitOf(rack, size) => rack in p.racks && p.racks[rack].size == size
    case SiteOnGrid(id, base, step) => id in p.sites && p.sites[id].base == base && p.sites[id].step == step
    case SitePool(id, from, to) => id in p.sites && p.sites[id].poolFrom == from && p.sites[id].poolTo == to
  }

  /** Unit and slot number zero mean none. */
  ghost predicate Makes(p: Plan, op: Op, f: Fact) {
    match f
    case Known(s) => op == Enrol(s)
    case InUnit(s, rack) =>
      (Places(p, op, s) && op.rack == rack) || (Updates(p, op, s) && op.newRack == Some(rack) && rack != 0)
    case InSlot(s, slot) =>
      (Places(p, op, s) && op.slot == slot) || (Updates(p, op, s) && op.newSlot == Some(slot) && slot != 0)
    case UnitAt(rack, site) =>
      (NewUnit(p, op, rack) && op.at == site) || (UnitMoves(p, op, rack) && op.to == site)
    case UnitFrom(rack, offset) => (NewUnit(p, op, rack) || UnitMoves(p, op, rack)) && op.offset == Some(offset)
    case UnitOf(rack, size) => (NewUnit(p, op, rack) || NewSize(p, op, rack)) && op.size == size
    case SiteOnGrid(id, base, step) => NewSite(p, op, id) && op.site.base == base && op.site.step == step
    case SitePool(id, from, to) =>
      || (NewSite(p, op, id) && op.site.poolFrom == from && op.site.poolTo == to)
      || (NewPool(p, op, id) && op.poolFrom == from && op.poolTo == to)
  }

  /** A blade can be forgotten while no unit is assigned to it. */
  ghost predicate Breaks(p: Plan, op: Op, f: Fact) {
    match f
    case Known(s) => op == Forget(s) && s in p.blades && p.blades[s].rack == None
    case InUnit(s, _) => op == TakeOut(s) || Places(p, op, s) || (Updates(p, op, s) && op.newRack != None)
    case InSlot(s, _) =>
      || op == TakeOut(s) || Places(p, op, s) || (Updates(p, op, s) && op.newSlot != None)
      || (op == Forget(s) && s in p.blades && p.blades[s].rack == None)
    case UnitAt(rack, _) => UnitMoves(p, op, rack) || UnitGoes(p, op, rack)
    case UnitFrom(rack, _) => UnitMoves(p, op, rack) || UnitGoes(p, op, rack)
    case UnitOf(rack, _) => NewSize(p, op, rack) || UnitGoes(p, op, rack)
    case SiteOnGrid(id, _, _) => SiteGoes(p, op, id)
    case SitePool(id, _, _) => NewPool(p, op, id) || SiteGoes(p, op, id)
  }

  // ---- One step ----

  ghost predicate Follows(p: Plan, op: Op, f: Fact) {
    Says(Step(p, op), f) <==> Makes(p, op, f) || (Says(p, f) && !Breaks(p, op, f))
  }

  lemma MayStandIff(p: Plan, s: string, pos: Position)
    ensures MayStand(p, s, pos) <==> (pos.rack.Some? && pos.slot.Some? ==> Open(p, s, pos.rack.value, pos.slot.value))
  {
    if pos.rack.Some? && pos.slot.Some? { assert pos == Position(Some(pos.rack.value), Some(pos.slot.value)); }
  }

  ghost predicate OfBlade(f: Fact) {
    f.Known? || f.InUnit? || f.InSlot?
  }

  ghost predicate OfUnit(f: Fact) {
    f.UnitAt? || f.UnitFrom? || f.UnitOf?
  }

  ghost predicate BladeOp(op: Op) {
    op.Enrol? || op.Place? || op.UpdateBlade? || op.TakeOut? || op.Forget?
  }

  ghost predicate UnitOp(op: Op) {
    op.CreateRack? || op.MoveRack? || op.ResizeRack? || op.DeleteRack?
  }

  /** Blades, units and sites are changed by operations of their own. */
  lemma OnlyItsOwn(p: Plan, op: Op)
    ensures !BladeOp(op) ==> Step(p, op).blades == p.blades
    ensures !UnitOp(op) ==> Step(p, op).racks == p.racks
    ensures BladeOp(op) || UnitOp(op) ==> Step(p, op).sites == p.sites
  {
    if BladeOp(op) { BladesOnly(p, op); } else if UnitOp(op) { UnitsOnly(p, op); } else { SitesOnly(p, op); }
  }

  lemma BladesOnly(p: Plan, op: Op)
    requires BladeOp(op)
    ensures Step(p, op).racks == p.racks && Step(p, op).sites == p.sites
  {
  }

  lemma UnitsOnly(p: Plan, op: Op)
    requires UnitOp(op)
    ensures Step(p, op).blades == p.blades && Step(p, op).sites == p.sites
  {
  }

  lemma SitesOnly(p: Plan, op: Op)
    requires !BladeOp(op) && !UnitOp(op)
    ensures Step(p, op).blades == p.blades && Step(p, op).racks == p.racks
  {
    if op.DeleteSite? { Dropped(p, op); }
  }

  lemma NothingHappens(p: Plan, q: Plan, op: Op, f: Fact)
    requires OfBlade(f) ==> !BladeOp(op) && q.blades == p.blades
    requires OfUnit(f) ==> !UnitOp(op) && q.racks == p.racks
    requires !OfBlade(f) && !OfUnit(f) ==> (BladeOp(op) || UnitOp(op)) && q.sites == p.sites
    ensures Says(q, f) <==> Makes(p, op, f) || (Says(p, f) && !Breaks(p, op, f))
  {
  }

  /** The position an operation asks for. */
  ghost function Asked(p: Plan, op: Op): Position
    requires (op.Place? || op.UpdateBlade?) && op.serial in p.blades
  {
    if op.Place? then Position(Some(op.rack), Some(op.slot))
    else Updated(p.blades[op.serial], op.newRack, op.newSlot)
  }

  lemma Standing(p: Plan, op: Op, f: Fact, pos: Position)
    requires OfBlade(f) && (op.Place? || op.UpdateBlade?) && op.serial in p.blades
    requires pos == Asked(p, op)
    ensures Step(p, op) == if MayStand(p, op.serial, pos) then p.(blades := p.blades[op.serial := pos]) else p
    ensures MayStand(p, op.serial, pos) <==> Places(p, op, op.serial) || Updates(p, op, op.serial)
  {
    MayStandIff(p, op.serial, pos);
  }

  lemma StandingStep(p: Plan, op: Op, f: Fact)
    requires OfBlade(f) && (op.Place? || op.UpdateBlade?)
    ensures Follows(p, op, f)
  {
    if op.serial in p.blades {
      var pos := Asked(p, op);
      Standing(p, op, f, pos);
      var ok := MayStand(p, op.serial, pos);
      Stood(p, Step(p, op), op, f, pos, ok);
    } else {
      assert Step(p, op) == p;
    }
  }

  lemma Stood(p: Plan, q: Plan, op: Op, f: Fact, pos: Position, ok: bool)
    requires OfBlade(f) && (op.Place? || op.UpdateBlade?) && op.serial in p.blades
    requires pos == Asked(p, op)
    requires q == if ok then p.(blades := p.blades[op.serial := pos]) else p
    requires ok <==> Places(p, op, op.serial) || Updates(p, op, op.serial)
    ensures Says(q, f) <==> Makes(p, op, f) || (Says(p, f) && !Breaks(p, op, f))
  {
  }

  lemma BladeStep(p: Plan, op: Op, f: Fact)
    requires OfBlade(f)
    ensures Follows(p, op, f)
  {
    if op.Place? || op.UpdateBlade? {
      StandingStep(p, op, f);
    } else if BladeOp(op) {
      ComingAndGoing(p, op, f);
    } else {
      OnlyItsOwn(p, op);
      NothingHappens(p, Step(p, op), op, f);
    }
  }

  lemma ComingAndGoing(p: Plan, op: Op, f: Fact)
    requires OfBlade(f) && (op.Enrol? || op.TakeOut? || op.Forget?)
    ensures Follows(p, op, f)
  {
  }

  lemma UnitStep(p: Plan, op: Op, f: Fact)
    requires OfUnit(f) && Numbered(p)
    ensures Follows(p, op, f)
  {
    match op
    case CreateRack(_, _, _) => CreateStep(p, op, f);
    case MoveRack(_, _, _) => MoveStep(p, op, f);
    case ResizeRack(_, _) => ResizeStep(p, op, f);
    case DeleteRack(_) => DeleteStep(p, op, f);
    case _ =>
      OnlyItsOwn(p, op);
      NothingHappens(p, Step(p, op), op, f);
  }

  lemma CreateStep(p: Plan, op: Op, f: Fact)
    requires OfUnit(f) && op.CreateRack? && Numbered(p)
    ensures Follows(p, op, f)
  {
  }

  lemma MoveStep(p: Plan, op: Op, f: Fact)
    requires OfUnit(f) && op.MoveRack?
    ensures Follows(p, op, f)
  {
  }

  lemma DeleteStep(p: Plan, op: Op, f: Fact)
    requires OfUnit(f) && op.DeleteRack?
    ensures Follows(p, op, f)
  {
  }

  lemma ResizeStep(p: Plan, op: Op, f: Fact)
    requires OfUnit(f) && op.ResizeRack? && Numbered(p)
    ensures Follows(p, op, f)
  {
    if op.rack in p.racks && op.size != 0 && op.size < p.racks[op.rack].size {
      assert Shrinkable(p, op.rack, op.size) <==>
             forall t :: InRack(p, op.rack, t) ==> p.blades[t].slot.value <= op.size;
    }
  }

  lemma OnlySite(p: Plan, id: nat)
    requires id in p.sites
    ensures |p.sites| <= 1 <==> p.sites.Keys == {id}
  {
    assert |p.sites| == |p.sites.Keys|;
    if p.sites.Keys != {id} {
      var other :| other in p.sites && other != id;
      var rest := p.sites.Keys - {id};
      assert other in rest;
      assert |p.sites.Keys| == |rest| + 1;
    }
  }

  lemma SiteStep(p: Plan, op: Op, f: Fact)
    requires !OfBlade(f) && !OfUnit(f)
    ensures Follows(p, op, f)
  {
    if op.DeleteSite? {
      DropStep(p, op, f);
    } else if op.CreateSite? || op.UpdateSite? {
      PoolStep(p, op, f);
    } else {
      OnlyItsOwn(p, op);
      NothingHappens(p, Step(p, op), op, f);
    }
  }

  lemma PoolStep(p: Plan, op: Op, f: Fact)
    requires !OfBlade(f) && !OfUnit(f) && (op.CreateSite? || op.UpdateSite?)
    ensures Follows(p, op, f)
  {
  }

  /** When the last site, or one with units, is to be deleted nothing happens. */
  lemma Dropped(p: Plan, op: Op)
    requires op.DeleteSite?
    ensures Step(p, op) == if SiteGoes(p, op, op.id) then p.(sites := p.sites - {op.id}) else p
  {
    if op.id in p.sites { OnlySite(p, op.id); } else { assert p.sites - {op.id} == p.sites; }
  }

  lemma DropStep(p: Plan, op: Op, f: Fact)
    requires !OfBlade(f) && !OfUnit(f) && op.DeleteSite?
    ensures Follows(p, op, f)
  {
    Dropped(p, op);
    Gone(p, Step(p, op), op, f, SiteGoes(p, op, op.id));
  }

  lemma Gone(p: Plan, q: Plan, op: Op, f: Fact, goes: bool)
    requires !OfBlade(f) && !OfUnit(f) && op.DeleteSite? && (goes <==> SiteGoes(p, op, op.id))
    requires q == if goes then p.(sites := p.sites - {op.id}) else p
    ensures Says(q, f) <==> Makes(p, op, f) || (Says(p, f) && !Breaks(p, op, f))
  {
  }

  // ---- Over every run ----

  /** Numbers of units are given once, and units have one of the four sizes. */
  ghost predicate Numbered(p: Plan) {
    forall i :: i in p.racks ==> i < p.nextRack && ValidSize(p.racks[i].size)
  }

  lemma {:induction false} AlwaysNumbered(ops: seq<Op>)
    ensures Numbered(Run(ops))
  {
    if ops != [] {
      AlwaysNumbered(ops[..|ops| - 1]);
      StaysNumbered(Run(ops[..|ops| - 1]), ops[|ops| - 1]);
    }
  }

  lemma StaysNumbered(p: Plan, op: Op)
    requires Numbered(p)
    ensures Numbered(Step(p, op))
  {
    if UnitOp(op) { NewNumbers(p, op); } else { OnlyItsOwn(p, op); NumbersStay(p, op); }
  }

  lemma NewNumbers(p: Plan, op: Op)
    requires UnitOp(op) && Numbered(p)
    ensures Numbered(Step(p, op))
  {
  }

  lemma NumbersStay(p: Plan, op: Op)
    requires !UnitOp(op)
    ensures Step(p, op).nextRack == p.nextRack
  {
    if op.DeleteSite? { Dropped(p, op); }
  }

  ghost function SaysAt(ops: seq<Op>, f: Fact): nat -> bool {
    (i: nat) => i <= |ops| && Says(Run(ops[..i]), f)
  }

  ghost function MakesAt(ops: seq<Op>, f: Fact): nat -> bool {
    (i: nat) => i < |ops| && Makes(Run(ops[..i]), ops[i], f)
  }

  ghost function BreaksAt(ops: seq<Op>, f: Fact): nat -> bool {
    (i: nat) => i < |ops| && Breaks(Run(ops[..i]), ops[i], f)
  }

  /** Some operation of the run made it so, and no later one ended it. */
  ghost predicate MadeAndKept(ops: seq<Op>, f: Fact) {
    exists i: nat :: Latch.SetAt(|ops|, MakesAt(ops, f), BreaksAt(ops, f), i)
  }

  lemma SaysNext(ops: seq<Op>, f: Fact, i: nat)
    requires i < |ops|
    ensures SaysAt(ops, f)(i + 1) <==> MakesAt(ops, f)(i) || (SaysAt(ops, f)(i) && !BreaksAt(ops, f)(i))
  {
    assert ops[..i + 1][..i] == ops[..i];
    var p, op := Run(ops[..i]), ops[i];
    AlwaysNumbered(ops[..i]);
    if OfBlade(f) { BladeStep(p, op, f); } else if OfUnit(f) { UnitStep(p, op, f); } else { SiteStep(p, op, f); }
  }

  lemma NothingAtFirst(ops: seq<Op>, f: Fact)
    ensures !SaysAt(ops, f)(0)
  {
    assert ops[..0] == [];
  }

  lemma InTheEnd(ops: seq<Op>, f: Fact)
    ensures SaysAt(ops, f)(|ops|) <==> Says(Run(ops), f)
  {
    assert ops[..|ops|] == ops;
  }

  lemma LatchOf(ops: seq<Op>, f: Fact)
    ensures SaysAt(ops, f)(|ops|) <==> MadeAndKept(ops, f)
  {
    var up, sets, clears := SaysAt(ops, f), MakesAt(ops, f), BreaksAt(ops, f);
    forall i: nat {:trigger sets(i)} | i < |ops| ensures up(i + 1) <==> sets(i) || (up(i) && !clears(i)) {
      SaysNext(ops, f, i);
    }
    NothingAtFirst(ops, f);
    Latch.UpIffSet(|ops|, up, sets, clears);
  }

  /** Over every run: a blade is known, in a unit, in a slot, a unit at a site with its block and size, and a site has
      its grid and pool, exactly if an accepted operation made it so and none since has ended it. */
  lemma FactIff(ops: seq<Op>, f: Fact)
    ensures Says(Run(ops), f) <==> MadeAndKept(ops, f)
  {
    InTheEnd(ops, f);
    LatchOf(ops, f);
  }

  lemma SitesGrow(p: Plan, op: Op)
    requires !op.DeleteSite?
    ensures p.sites.Keys <= Step(p, op).sites.Keys
  {
  }

  /** Once there is a site, every run keeps one. */
  lemma {:induction false} ASiteRemains(ops: seq<Op>, n: nat)
    requires n <= |ops| && Run(ops[..n]).sites != map[]
    ensures Run(ops).sites != map[]
    decreases |ops|
  {
    if n == |ops| {
      assert ops[..n] == ops;
    } else {
      var front, op := ops[..|ops| - 1], ops[|ops| - 1];
      assert front[..n] == ops[..n];
      ASiteRemains(front, n);
      var p := Run(front);
      if op.DeleteSite? { Dropped(p, op); } else { SitesGrow(p, op); }
    }
  }
}
