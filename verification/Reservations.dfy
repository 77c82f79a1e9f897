/** DHCP reservations: one file per blade, written by the site from its document (site/dhcp.go) or by the centre where
    it serves the wire itself (server/ipam.go). The validators are parameters. */
module Reservations {
  import opened Wrappers
  import opened Text
  import opened Seqs
  import Centre

  type Files = map<string, string>

  /** Whether a hardware address, a host name and an address make a reservation. */
  type Validator = (string, string, string) -> bool

  /** One file to write: its name and what it holds. */
  datatype Record = Record(name: string, body: string)

  // ---- Rendering ----

  function Digit(d: nat): char
    requires d < 16
  {
    "0123456789abcdef"[d]
  }

  function Decimal(n: int): string
    decreases if n < 0 then 1 - n else n
  {
    if n < 0 then "-" + Decimal(-n) else if n < 10 then [Digit(n)] else Decimal(n / 10) + [Digit(n % 10)]
  }

  /** %02d for what is not negative. */
  function TwoDigits(n: int): string {
    if 0 <= n < 10 then "0" + Decimal(n) else Decimal(n)
  }

  /** %02x of the low byte. */
  function LowByte(n: int): string {
    [Digit(n % 256 / 16), Digit(n % 16)]
  }

  function BladeMac(site: int, rack: int, slot: int): string {
    "02:b1:ad:" + LowByte(site) + ":" + LowByte(rack) + ":" + LowByte(slot)
  }

  function BladeHostname(prefix: string, rack: int, slot: int): string {
    (if prefix != "" then "blade-" + prefix + "-r" else "blade-r") + Decimal(rack) + "s" + TwoDigits(slot)
  }

  function FileName(serial: string): string {
    "blade-" + serial + ".conf"
  }

  predicate IsBladeFile(name: string) {
    "blade-" <= name && EndsWith(name, ".conf")
  }

  function HostLine(mac: string, netboot: bool, host: string, ip: string): string {
    mac + "," + (if netboot then "set:bootnet," else "") + host + "," + ip + ",infinite"
  }

  predicate OneLine(s: string) {
    '\n' !in s
  }

  predicate IsActive(line: string) {
    line != "" && line[0] != '#'
  }

  /** The first line says which program wrote the file. */
  function Title(author: string): (r: string)
    requires OneLine(author)
    ensures OneLine(r) && !IsActive(r)
  {
    "# Sheath \U{2013} generated" + author + ", do not edit by hand"
  }

  function OverTheNetwork(request: string, end: string): (r: string)
    requires OneLine(request) && OneLine(end)
    ensures OneLine(r)
  {
    request + " requested \U{2013} boots over the network" + end
  }

  function FromDisk(): (r: string)
    ensures OneLine(r)
  {
    "boots from the NVMe"
  }

  /** Three lines of comment and the reservation. */
  function FileBody(title: string, place: string, why: string, line: string): string {
    title + "\n" + ("# Blade " + place + "\n" + ("# " + why + "\n" + (line + "\n" + "")))
  }

  // ---- Reconciling a directory ----

  /** Writing one record, leaving it alone where it already reads so. */
  function WriteOne(files: Files, written: seq<string>, r: Record): (Files, seq<string>) {
    if Holds(files, r) then (files, written) else (files[r.name := r.body], written + [r.name])
  }

  function WriteAll(files: Files, recs: seq<Record>): (Files, seq<string>) {
    if recs == [] then (files, [])
    else
      var (f, written) := WriteAll(files, recs[..|recs| - 1]);
      WriteOne(f, written, recs[|recs| - 1])
  }

  predicate Holds(files: Files, r: Record) {
    r.name in files && files[r.name] == r.body
  }

  function Names(recs: seq<Record>): set<string> {
    set k | 0 <= k < |recs| :: recs[k].name
  }

  /** Files of blades that are no longer wanted. */
  function Orphans(files: Files, keep: set<string>): set<string> {
    set n | n in files && IsBladeFile(n) && n !in keep
  }

  function Reconciled(files: Files, recs: seq<Record>): Files {
    var f := WriteAll(files, recs).0;
    f - Orphans(f, Names(recs))
  }

  ghost predicate NamesApart(recs: seq<Record>) {
    forall i, j :: 0 <= i < j < |recs| ==> recs[i].name != recs[j].name
  }

  predicate Same(f: Files, g: Files, n: string) {
    (n in f <==> n in g) && (n in f ==> f[n] == g[n])
  }

  /** All records are in place, nothing else has changed, and nothing was written only if all were in place before. */
  ghost predicate Wrote(files: Files, recs: seq<Record>, f: Files, written: seq<string>) {
    && (forall k :: 0 <= k < |recs| ==> Holds(f, recs[k]))
    && (forall n :: n !in Names(recs) ==> Same(files, f, n))
    && (written == [] <==> forall k :: 0 <= k < |recs| ==> Holds(files, recs[k]))
  }

  lemma WroteOneMore(files: Files, recs: seq<Record>, f: Files, written: seq<string>)
    requires recs != [] && NamesApart(recs) && Wrote(files, recs[..|recs| - 1], f, written)
    ensures var (g, more) := WriteOne(f, written, recs[|recs| - 1]); Wrote(files, recs, g, more)
  {
    var front, last := recs[..|recs| - 1], recs[|recs| - 1];
    var (g, more) := WriteOne(f, written, last);
    assert last.name !in Names(front);
    assert Same(files, f, last.name);
    assert Names(front) <= Names(recs);
    forall k | 0 <= k < |recs| ensures Holds(g, recs[k]) {
      if k < |front| { assert Holds(f, front[k]); }
    }
    forall n | n !in Names(recs) ensures Same(files, g, n) {
      assert recs[|recs| - 1].name in Names(recs);
      assert Same(files, f, n);
    }
    if forall k :: 0 <= k < |recs| ==> Holds(files, recs[k]) {
      forall k | 0 <= k < |front| ensures Holds(files, front[k]) { assert Holds(files, recs[k]); }
    }
    if more == [] {
      forall k | 0 <= k < |recs| ensures Holds(files, recs[k]) {
        if k < |front| { assert Holds(files, front[k]); }
      }
    }
  }

  lemma {:induction false} WritingWrites(files: Files, recs: seq<Record>)
    requires NamesApart(recs)
    ensures var (f, written) := WriteAll(files, recs); Wrote(files, recs, f, written)
  {
    if recs != [] {
      WritingWrites(files, recs[..|recs| - 1]);
      var (f, written) := WriteAll(files, recs[..|recs| - 1]);
      WroteOneMore(files, recs, f, written);
    }
  }

  /** The directory after a run. */
  ghost predicate InStep(files: Files, recs: seq<Record>, f: Files) {
    && (forall n :: n in f && IsBladeFile(n) <==> n in Names(recs))
    && (forall k :: 0 <= k < |recs| ==> Holds(f, recs[k]))
    && (forall n :: !IsBladeFile(n) ==> Same(files, f, n))
  }

  ghost predicate BladeRecords(recs: seq<Record>) {
    NamesApart(recs) && forall k :: 0 <= k < |recs| ==> IsBladeFile(recs[k].name)
  }

  /** Afterwards the blade files are exactly the records, and every other file is as it was. */
  lemma ReconciledMeans(files: Files, recs: seq<Record>)
    requires BladeRecords(recs)
    ensures InStep(files, recs, Reconciled(files, recs))
  {
    WritingWrites(files, recs);
    var f := WriteAll(files, recs).0;
    var g := Reconciled(files, recs);
    forall k | 0 <= k < |recs| ensures Holds(g, recs[k]) {
      assert Holds(f, recs[k]) && recs[k].name in Names(recs);
    }
    forall n | !IsBladeFile(n) ensures Same(files, g, n) {
      assert n !in Names(recs);
      assert Same(files, f, n);
    }
  }

  /** Only one directory is in step. */
  lemma InStepIsUnique(files: Files, recs: seq<Record>, f: Files, g: Files)
    requires InStep(files, recs, f) && InStep(files, recs, g)
    ensures f == g
  {
    forall n ensures Same(f, g, n) {
      if n in Names(recs) {
        var k :| 0 <= k < |recs| && recs[k].name == n;
        assert Holds(f, recs[k]) && Holds(g, recs[k]);
      } else if !IsBladeFile(n) {
        assert Same(files, f, n) && Same(files, g, n);
      }
    }
    SameEverywhere(f, g);
  }

  lemma SameEverywhere(f: Files, g: Files)
    requires forall n :: Same(f, g, n)
    ensures f == g
  {
    assert forall n :: n in f ==> Same(f, g, n);
    assert forall n :: n in g ==> Same(f, g, n);
  }

  /** A file that is not one of the records goes exactly if its name is that of a blade's file; the administrator's own
      files stay as they are. */
  lemma ForeignFileStaysIff(files: Files, recs: seq<Record>, n: string)
    requires n in files && forall k :: 0 <= k < |recs| ==> recs[k].name != n
    ensures var g := Reconciled(files, recs);
            && (n in g ==> g[n] == files[n])
            && (n in g <==> !(|n| >= 6 && n[..6] == "blade-" && n[|n| - 5..] == ".conf"))
  {
    assert n !in Names(recs);
    OthersKept(files, recs, n);
    assert "blade-" <= n <==> |n| >= 6 && n[..6] == "blade-";
    assert |".conf"| == 5;
  }

  lemma {:induction false} OthersKept(files: Files, recs: seq<Record>, n: string)
    requires n !in Names(recs)
    ensures Same(files, WriteAll(files, recs).0, n)
  {
    if recs != [] {
      var last := |recs| - 1;
      assert recs[last].name in Names(recs);
      assert Names(recs[..last]) <= Names(recs);
      OthersKept(files, recs[..last], n);
    }
  }

  /** Nothing is written or removed, and so nothing reloaded, exactly when the directory is already in step. */
  lemma QuietIff(files: Files, recs: seq<Record>)
    requires BladeRecords(recs)
    ensures var (f, written) := WriteAll(files, recs);
            (written == [] && Orphans(f, Names(recs)) == {}) <==> InStep(files, recs, files)
  {
    WritingWrites(files, recs);
    var (f, written) := WriteAll(files, recs);
    assert forall n | n in Names(recs) :: IsBladeFile(n);
    if written == [] {
      forall n ensures Same(files, f, n) {
        if n in Names(recs) {
          var k :| 0 <= k < |recs| && recs[k].name == n;
          assert Holds(f, recs[k]) && Holds(files, recs[k]);
        }
      }
      SameEverywhere(files, f);
    }
    assert written == [] && InStep(files, recs, files) ==> Orphans(f, Names(recs)) == {};
    if written == [] && Orphans(f, Names(recs)) == {} {
      forall n ensures n in files && IsBladeFile(n) <==> n in Names(recs) {
        if n in Names(recs) {
          var k :| 0 <= k < |recs| && recs[k].name == n;
          assert Holds(files, recs[k]);
        } else {
          assert n !in Orphans(f, Names(recs));
        }
      }
    }
  }

  /** A second run does nothing. */
  lemma SecondRunIsQuiet(files: Files, recs: seq<Record>)
    requires BladeRecords(recs)
    ensures var g := Reconciled(files, recs);
            var (f, written) := WriteAll(g, recs);
            written == [] && Orphans(f, Names(recs)) == {}
  {
    var g := Reconciled(files, recs);
    ReconciledMeans(files, recs);
    assert InStep(g, recs, g);
    QuietIff(g, recs);
  }

  // ---- What the site writes ----

  /** A blade in the site's document. */
  datatype Entry = Entry(serial: string, mac: string, host: string, ip: string, rack: string, slot: int, netboot: bool)

  predicate Accepts(check: Validator, e: Entry) {
    e.mac != "" && e.ip != "" && e.host != "" && check(e.mac, e.host, e.ip)
  }

  function SiteRecord(e: Entry): Record {
    Record(FileName(e.serial),
           FileBody(Title(" by sheath-site"),
                    e.serial + "  BladeRunner " + e.rack + "  Slot " + Decimal(e.slot),
                    if e.netboot then OverTheNetwork("install", "") else FromDisk(),
                    HostLine(e.mac, e.netboot, e.host, e.ip)))
  }

  function SiteRecords(check: Validator, entries: seq<Entry>): seq<Record> {
    FilterMap((e: Entry) => Accepts(check, e), SiteRecord, entries)
  }

  // ---- What the centre writes ----

  datatype Rack = Rack(name: string, index: int)

  /** A blade in the inventory; `armed` is whether a firmware reading is due. */
  datatype Blade = Blade(
    serial: string, site: int, rack: Option<Rack>, slot: Option<int>, mac: string, host: string, ip: string,
    install: Centre.InstallState, armed: bool)

  predicate Placed(b: Blade) {
    b.rack.Some? && b.slot.Some? && b.ip != ""
  }

  /** Where a name or an address has not been given it follows from the position. */
  function EntryOf(prefix: int -> string, b: Blade): Entry {
    if !Placed(b) then Entry(b.serial, b.mac, b.host, b.ip, "", 0, false)
    else
      var rack, slot := b.rack.value, b.slot.value;
      Entry(b.serial,
            if b.mac != "" then b.mac else BladeMac(b.site, rack.index, slot),
            if b.host != "" then b.host else BladeHostname(prefix(b.site), rack.index, slot),
            b.ip, rack.name, slot, b.install.Pending? || b.install.Wipe? || b.armed)
  }

  /** The document of a site, before it is sorted by address. */
  function Document(prefix: int -> string, inventory: seq<Blade>, site: int): seq<Entry> {
    FilterMap((b: Blade) => Placed(b) && b.site == site, (b: Blade) => EntryOf(prefix, b), inventory)
  }

  /** Why a blade boots over the network, if it does. */
  function Reason(b: Blade): Option<string> {
    match b.install
    case Pending => Some(OverTheNetwork("install", ""))
    case Wipe => Some(OverTheNetwork("erase", ""))
    case _ => if b.armed then Some(OverTheNetwork("firmware read", " once")) else None
  }

  function CentreRecord(prefix: int -> string, b: Blade): Record {
    var e := EntryOf(prefix, b);
    Record(FileName(e.serial),
           FileBody(Title(""),
                    e.serial + "  Rack " + e.rack + "  Slot " + Decimal(e.slot),
                    if Reason(b).Some? then Reason(b).value else FromDisk(),
                    HostLine(e.mac, Reason(b).Some?, e.host, e.ip)))
  }

  /** The blades the centre serves: those of its own site, or all where it has none. */
  predicate Served(b: Blade, local: int) {
    Placed(b) && (local == 0 || b.site == local)
  }

  function CentreRecords(prefix: int -> string, inventory: seq<Blade>, local: int): seq<Record> {
    FilterMap((b: Blade) => Served(b, local), (b: Blade) => CentreRecord(prefix, b), inventory)
  }

  predicate CentreAccepts(check: Validator, prefix: int -> string, b: Blade) {
    var e := EntryOf(prefix, b);
    check(e.mac, e.host, e.ip)
  }

  // ---- Names ----

  lemma FileNameMeans(a: string, b: string)
    ensures IsBladeFile(FileName(a)) && (FileName(a) == FileName(b) <==> a == b)
  {
    var s, t := FileName(a), FileName(b);
    assert s[..6] == "blade-" && s[|s| - 5..] == ".conf";
    assert s[6..6 + |a|] == a && t[6..6 + |b|] == b;
  }

  /** Records made of things with distinct serials go to distinct blade files. */
  lemma {:induction false} RecordsApart<T(!new)>(keep: T -> bool, make: T -> Record, serial: T -> string, xs: seq<T>)
    requires Distinct(serial, xs) && forall x :: make(x).name == FileName(serial(x))
    ensures BladeRecords(FilterMap(keep, make, xs))
  {
    var file := (x: T) => FileName(serial(x));
    forall i, j | 0 <= i < j < |xs| ensures file(xs[i]) != file(xs[j]) {
      FileNameMeans(serial(xs[i]), serial(xs[j]));
    }
    FilterMapDistinct(keep, make, file, (r: Record) => r.name, xs);
    FilterMapMeans(keep, make, xs);
    var recs := FilterMap(keep, make, xs);
    forall k | 0 <= k < |recs| ensures IsBladeFile(recs[k].name) {
      assert recs[k] in recs;
      var i :| 0 <= i < |xs| && keep(xs[i]) && make(xs[i]) == recs[k];
      FileNameMeans(serial(xs[i]), "");
    }
    assert forall i, j :: 0 <= i < j < |recs| ==> ((r: Record) => r.name)(recs[i]) != ((r: Record) => r.name)(recs[j]);
  }

  // ---- Lines that count ----

  /** What dnsmasq reads of a file: neither comments nor empty lines. */
  function Active(lines: seq<string>): seq<string> {
    if lines == [] then [] else if IsActive(lines[0]) then [lines[0]] + Active(lines[1..]) else Active(lines[1..])
  }

  lemma {:induction false} ActiveConcat(a: seq<string>, b: seq<string>)
    ensures Active(a + b) == Active(a) + Active(b)
  {
    if a == [] {
      assert a + b == b;
    } else {
      ActiveConcat(a[1..], b);
      assert (a + b)[1..] == a[1..] + b;
    }
  }

  /** Of the line that names the place only what follows a newline in it counts. */
  lemma ActivePlace(h: string, tail: string)
    requires OneLine(h) && h != "" && !IsActive(h)
    ensures Active(Lines(h + tail)) == Active(Lines(tail)[1..])
  {
    LinesPrefixed(h, tail);
    var first := h + Lines(tail)[0];
    assert first[0] == h[0] && !IsActive(first);
    assert ([first] + Lines(tail)[1..])[1..] == Lines(tail)[1..];
  }

  /** What dnsmasq reads of a file: the reservation, and before it whatever lines the place brings along. */
  lemma ActiveLines(title: string, head: string, tail: string, why: string, line: string)
    requires OneLine(title) && OneLine(head) && OneLine(why) && OneLine(line) && !IsActive(title) && IsActive(line)
    ensures Active(Lines(FileBody(title, head + tail, why, line))) == Active(Lines(tail)[1..]) + [line]
  {
    var r2 := "# " + why + "\n" + (line + "\n" + "");
    var x := "# Blade " + (head + tail);
    ActiveCut(title, x + "\n" + r2);
    ActiveEnd(why, line);
    LinesConcat(x, r2);
    ActiveConcat(Lines(x), Lines(r2));
    PlaceLine(head, tail);
  }

  lemma PlaceLine(head: string, tail: string)
    requires OneLine(head)
    ensures Active(Lines("# Blade " + (head + tail))) == Active(Lines(tail)[1..])
  {
    assert "# Blade " + (head + tail) == ("# Blade " + head) + tail;
    ActivePlace("# Blade " + head, tail);
  }

  lemma ActiveEnd(why: string, line: string)
    requires OneLine(why) && OneLine(line) && IsActive(line)
    ensures Active(Lines("# " + why + "\n" + (line + "\n" + ""))) == [line]
  {
    ActiveCut("# " + why, line + "\n" + "");
    ActiveCut(line, "");
    assert Active(Lines("")) == [] by { assert Lines("") == [""] && [""][1..] == []; }
  }

  lemma ActiveCut(line: string, rest: string)
    requires OneLine(line)
    ensures Active(Lines(line + "\n" + rest)) == (if IsActive(line) then [line] else []) + Active(Lines(rest))
  {
    LinesCut(line, rest);
    assert ([line] + Lines(rest))[1..] == Lines(rest);
  }

  /** Nothing but the unit's name can break a line. The validators see to the addresses and the host name. */
  predicate Printable(e: Entry) {
    OneLine(e.serial) && OneLine(e.mac) && IsActive(e.mac) && OneLine(e.host) && OneLine(e.ip)
  }

  /** The unit's name and the slot, as both programs write them. */
  function PlaceText(e: Entry): string {
    e.rack + "  Slot " + Decimal(e.slot)
  }

  /** Lines that count and come from the unit's name. */
  function ExtraLines(e: Entry): seq<string> {
    Active(Lines(PlaceText(e))[1..])
  }

  lemma {:induction false} DecimalIsOneLine(n: int)
    ensures OneLine(Decimal(n))
    decreases if n < 0 then 1 - n else n
  {
    if n < 0 { DecimalIsOneLine(-n); } else if n >= 10 { DecimalIsOneLine(n / 10); }
  }

  lemma HostLineIsActive(e: Entry, netboot: bool)
    requires Printable(e)
    ensures OneLine(HostLine(e.mac, netboot, e.host, e.ip)) && IsActive(HostLine(e.mac, netboot, e.host, e.ip))
  {
  }

  lemma SiteLine(e: Entry)
    requires Printable(e)
    ensures Active(Lines(SiteRecord(e).body)) == ExtraLines(e) + [HostLine(e.mac, e.netboot, e.host, e.ip)]
  {
    var head := e.serial + "  BladeRunner ";
    assert e.serial + "  BladeRunner " + e.rack + "  Slot " + Decimal(e.slot) == head + PlaceText(e);
    HostLineIsActive(e, e.netboot);
    ActiveLines(Title(" by sheath-site"), head, PlaceText(e),
                if e.netboot then OverTheNetwork("install", "") else FromDisk(),
                HostLine(e.mac, e.netboot, e.host, e.ip));
  }

  lemma CentreLine(prefix: int -> string, b: Blade)
    requires Placed(b) && Printable(EntryOf(prefix, b))
    ensures var e := EntryOf(prefix, b);
            Active(Lines(CentreRecord(prefix, b).body)) == ExtraLines(e) + [HostLine(e.mac, e.netboot, e.host, e.ip)]
  {
    var e := EntryOf(prefix, b);
    var head := e.serial + "  Rack ";
    assert e.serial + "  Rack " + e.rack + "  Slot " + Decimal(e.slot) == head + PlaceText(e);
    HostLineIsActive(e, e.netboot);
    ActiveLines(Title(""), head, PlaceText(e),
                if Reason(b).Some? then Reason(b).value else FromDisk(),
                HostLine(e.mac, e.netboot, e.host, e.ip));
  }

  // ---- Exactly when a file has one line that counts ----

  /** The unit's name has one line, or all further ones are blank or comments and the last is a comment. */
  predicate BringsNoLine(rack: string) {
    var ls := Lines(rack);
    |ls| == 1 ||
    ((forall i :: 1 <= i < |ls| - 1 ==> !IsActive(ls[i])) && ls[|ls| - 1] != "" && !IsActive(ls[|ls| - 1]))
  }

  lemma {:induction false} ActiveEmptyIff(lines: seq<string>)
    ensures Active(lines) == [] <==> forall i :: 0 <= i < |lines| ==> !IsActive(lines[i])
  {
    if lines != [] {
      ActiveEmptyIff(lines[1..]);
      assert forall i :: 0 < i < |lines| ==> lines[i] == lines[1..][i - 1];
      assert forall i :: 0 <= i < |lines[1..]| ==> lines[1..][i] == lines[i + 1];
    }
  }

  lemma LaterLinesIff(rack: string, t: string)
    requires OneLine(t) && IsActive(t)
    ensures Active(Lines(rack + t)[1..]) == [] <==> BringsNoLine(rack)
  {
    LinesSuffixed(rack, t);
    var ls, n := Lines(rack), |Lines(rack)| - 1;
    var more := Lines(rack + t)[1..];
    ActiveEmptyIff(more);
    if n > 0 {
      assert more == ls[1..n] + [ls[n] + t];
      assert more[n - 1] == ls[n] + t;
      assert forall i :: 1 <= i < n ==> more[i - 1] == ls[i];
      assert forall i :: 0 <= i < n - 1 ==> more[i] == ls[i + 1];
      assert IsActive(ls[n] + t) <==> ls[n] == "" || IsActive(ls[n]);
    } else {
      assert more == [];
    }
  }

  lemma OneLineThatCountsIff(e: Entry)
    requires Printable(e)
    ensures |Active(Lines(SiteRecord(e).body))| == 1 <==> BringsNoLine(e.rack)
  {
    SiteLine(e);
    SlotText(e.slot);
    LaterLinesIff(e.rack, "  Slot " + Decimal(e.slot));
    SamePlace(e);
  }

  lemma SlotText(slot: int)
    ensures OneLine("  Slot " + Decimal(slot)) && IsActive("  Slot " + Decimal(slot))
  {
    DecimalIsOneLine(slot);
  }

  lemma SamePlace(e: Entry)
    ensures PlaceText(e) == e.rack + ("  Slot " + Decimal(e.slot))
  {
  }

  /** A unit named over two lines gives dnsmasq a line to read. */
  lemma NameWithALine()
    ensures !BringsNoLine("a\nb")
  {
    assert "a\nb" == "a" + "\n" + "b";
    LinesCut("a", "b");
    assert Lines("b") == ["b"];
  }

  /** The site's document as it is read there: in any order, with distinct serials. */
  lemma DocumentHasDistinctSerials(prefix: int -> string, inventory: seq<Blade>, site: int, entries: seq<Entry>)
    requires Distinct((b: Blade) => b.serial, inventory)
    requires multiset(entries) == multiset(Document(prefix, inventory, site))
    ensures Distinct((e: Entry) => e.serial, entries)
  {
    var keep, make := (b: Blade) => Placed(b) && b.site == site, (b: Blade) => EntryOf(prefix, b);
    FilterMapDistinct(keep, make, (b: Blade) => b.serial, (e: Entry) => e.serial, inventory);
    RearrangedDistinct((e: Entry) => e.serial, Document(prefix, inventory, site), entries);
  }

  /** Whether the site writes them from its document or the centre from its inventory, at the same instant the same
      blades have a file and dnsmasq reads the same lines in it. */
  lemma SiteAndCentreAgree(
    check: Validator, prefix: int -> string, inventory: seq<Blade>, site: int, entries: seq<Entry>,
    there: Files, here: Files, n: string)
    requires site != 0 && Distinct((b: Blade) => b.serial, inventory)
    requires multiset(entries) == multiset(Document(prefix, inventory, site))
    requires forall e :: e in entries ==> Accepts(check, e) && Printable(e)
    requires IsBladeFile(n)
    ensures var f, g :=
            Reconciled(there, SiteRecords(check, entries)), Reconciled(here, CentreRecords(prefix, inventory, site));
            (n in f <==> n in g) && (n in f ==> Active(Lines(f[n])) == Active(Lines(g[n])))
  {
    var ours, theirs := SiteRecords(check, entries), CentreRecords(prefix, inventory, site);
    var f, g := Reconciled(there, ours), Reconciled(here, theirs);
    DocumentHasDistinctSerials(prefix, inventory, site, entries);
    RecordsApart((e: Entry) => Accepts(check, e), SiteRecord, (e: Entry) => e.serial, entries);
    RecordsApart((b: Blade) => Served(b, site), (b: Blade) => CentreRecord(prefix, b),
                 (b: Blade) => b.serial, inventory);
    ReconciledMeans(there, ours);
    ReconciledMeans(here, theirs);
    if n in f {
      var r := RecordNamed(ours, n);
      var b := SiteMaker(check, prefix, inventory, site, entries, r);
      RecordsOf(check, prefix, inventory, site, entries, b);
      TwinFiles(prefix, b, ours, theirs, there, here, f, g);
    }
    if n in g {
      var r := RecordNamed(theirs, n);
      var b := CentreMaker(prefix, inventory, site, r);
      RecordsOf(check, prefix, inventory, site, entries, b);
      TwinFiles(prefix, b, ours, theirs, there, here, f, g);
    }
  }

  predicate ServedAt(site: int, inventory: seq<Blade>, b: Blade) {
    b in inventory && Placed(b) && b.site == site
  }

  lemma RecordNamed(recs: seq<Record>, n: string) returns (r: Record)
    requires n in Names(recs)
    ensures r in recs && r.name == n
  {
    var i :| 0 <= i < |recs| && recs[i].name == n;
    r := recs[i];
  }

  lemma TwinFiles(prefix: int -> string, b: Blade, ours: seq<Record>, theirs: seq<Record>, there: Files, here: Files,
      f: Files, g: Files)
    requires SiteRecord(EntryOf(prefix, b)) in ours && CentreRecord(prefix, b) in theirs
    requires InStep(there, ours, f) && InStep(here, theirs, g) && Placed(b) && Printable(EntryOf(prefix, b))
    ensures SiteRecord(EntryOf(prefix, b)).name == CentreRecord(prefix, b).name
    ensures var n := CentreRecord(prefix, b).name; n in f && n in g && Active(Lines(f[n])) == Active(Lines(g[n]))
  {
    var r, q := SiteRecord(EntryOf(prefix, b)), CentreRecord(prefix, b);
    SiteLine(EntryOf(prefix, b));
    CentreLine(prefix, b);
    Found(there, ours, f, r);
    Found(here, theirs, g, q);
  }

  lemma Found(files: Files, recs: seq<Record>, f: Files, r: Record)
    requires InStep(files, recs, f) && r in recs
    ensures Holds(f, r)
  {
    var i :| 0 <= i < |recs| && recs[i] == r;
  }

  /** The blade behind a record of the site. */
  lemma SiteMaker(check: Validator, prefix: int -> string, inventory: seq<Blade>, site: int, entries: seq<Entry>,
      r: Record) returns (b: Blade)
    requires multiset(entries) == multiset(Document(prefix, inventory, site))
    requires r in SiteRecords(check, entries)
    ensures ServedAt(site, inventory, b) && SiteRecord(EntryOf(prefix, b)) == r
  {
    var keep := (e: Entry) => Accepts(check, e);
    FilterMapMeans(keep, SiteRecord, entries);
    assert Made(keep, SiteRecord, entries, r);
    var i :| 0 <= i < |entries| && keep(entries[i]) && SiteRecord(entries[i]) == r;
    assert entries[i] in entries;
    DocumentMembers(prefix, inventory, site, entries, entries[i]);
    var k :| 0 <= k < |inventory| && Placed(inventory[k]) && inventory[k].site == site &&
        EntryOf(prefix, inventory[k]) == entries[i];
    b := inventory[k];
  }

  /** The blade behind a record of the centre. */
  lemma CentreMaker(prefix: int -> string, inventory: seq<Blade>, site: int, r: Record) returns (b: Blade)
    requires site != 0 && r in CentreRecords(prefix, inventory, site)
    ensures ServedAt(site, inventory, b) && CentreRecord(prefix, b) == r
  {
    var keep, make := (b: Blade) => Served(b, site), (b: Blade) => CentreRecord(prefix, b);
    FilterMapMeans(keep, make, inventory);
    assert Made(keep, make, inventory, r);
    var k :| 0 <= k < |inventory| && keep(inventory[k]) && make(inventory[k]) == r;
    b := inventory[k];
  }

  /** Both sides have a record of every blade served. */
  lemma RecordsOf(check: Validator, prefix: int -> string, inventory: seq<Blade>, site: int, entries: seq<Entry>,
      b: Blade)
    requires multiset(entries) == multiset(Document(prefix, inventory, site)) && ServedAt(site, inventory, b)
    requires forall e :: e in entries ==> Accepts(check, e)
    ensures EntryOf(prefix, b) in entries
    ensures SiteRecord(EntryOf(prefix, b)) in SiteRecords(check, entries) &&
            CentreRecord(prefix, b) in CentreRecords(prefix, inventory, site)
  {
    var keepE, keepB := (e: Entry) => Accepts(check, e), (b: Blade) => Served(b, site);
    var make := (b: Blade) => CentreRecord(prefix, b);
    var e := EntryOf(prefix, b);
    var k :| 0 <= k < |inventory| && inventory[k] == b;
    DocumentMembers(prefix, inventory, site, entries, e);
    var i :| 0 <= i < |entries| && entries[i] == e;
    FilterMapMeans(keepE, SiteRecord, entries);
    FilterMapMeans(keepB, make, inventory);
    assert keepE(entries[i]) && SiteRecord(entries[i]) == SiteRecord(e);
    assert keepB(inventory[k]) && make(inventory[k]) == CentreRecord(prefix, b);
    assert Made(keepE, SiteRecord, entries, SiteRecord(e)) && Made(keepB, make, inventory, CentreRecord(prefix, b));
  }

  /** What stands in the site's document. */
  lemma DocumentMembers(prefix: int -> string, inventory: seq<Blade>, site: int, entries: seq<Entry>, e: Entry)
    requires multiset(entries) == multiset(Document(prefix, inventory, site))
    ensures e in entries <==>
            exists k :: 0 <= k < |inventory| && Placed(inventory[k]) && inventory[k].site == site &&
                EntryOf(prefix, inventory[k]) == e
  {
    var keep, make := (b: Blade) => Placed(b) && b.site == site, (b: Blade) => EntryOf(prefix, b);
    FilterMapMeans(keep, make, inventory);
    assert e in entries <==> e in multiset(entries);
    assert e in Document(prefix, inventory, site) <==> e in multiset(Document(prefix, inventory, site));
    assert e in entries <==> Made(keep, make, inventory, e);
  }

  /** A directory of host records. */
  class HostsDir {
    var files: Files

    constructor (found: Files)
      ensures files == found
    {
      files := found;
    }

    /** The loop over the directory, common to both writers. */
    method RemoveOrphans(keep: set<string>) returns (removed: set<string>)
      modifies this
      ensures removed == Orphans(old(files), keep) && files == old(files) - removed
    {
      removed := {};
      var entries := files.Keys;
      while entries != {}
        invariant entries <= old(files).Keys
        invariant removed == Orphans(old(files), keep) - entries
        invariant files == old(files) - removed
      {
        var n :| n in entries;
        if IsBladeFile(n) && n !in keep {
          files := files - {n};
          removed := removed + {n};
        }
        entries := entries - {n};
      }
    }

    /** writeReservations on a disk without errors. */
    method WriteReservations(check: Validator, entries: seq<Entry>, dry: bool)
      returns (written: seq<string>, removed: set<string>, reload: bool)
      modifies this
      ensures dry ==> files == old(files) && !reload
      ensures !dry ==>
        var recs := SiteRecords(check, entries);
        var (f, names) := WriteAll(old(files), recs);
        && files == Reconciled(old(files), recs) && written == names && removed == Orphans(f, Names(recs))
        && (reload <==> written != [] || removed != {})
    {
      written, removed := [], {};
      var want := {};
      var k := 0;
      while k < |entries|
        invariant k <= |entries|
        invariant want == Names(SiteRecords(check, entries[..k]))
        invariant if dry then files == old(files)
                  else (files, written) == WriteAll(old(files), SiteRecords(check, entries[..k]))
      {
        var e := entries[k];
        SiteNext(check, old(files), entries, k);
        if Accepts(check, e) {
          var r := SiteRecord(e);
          want := want + {r.name};
          if !Holds(files, r) {
            if !dry { files := files[r.name := r.body]; }
            written := written + [r.name];
          }
        }
        k := k + 1;
      }
      assert entries[..k] == entries;
      if dry {
        removed := Orphans(files, want);
        return written, removed, false;
      }
      removed := RemoveOrphans(want);
      reload := written != [] || removed != {};
    }

    /** The part of a writer's loop that looks at the file and writes it. */
    method Put(r: Record, written: seq<string>) returns (more: seq<string>)
      modifies this
      ensures (files, more) == WriteOne(old(files), written, r)
    {
      if Holds(files, r) { return written; }
      files := files[r.name := r.body];
      more := written + [r.name];
    }

    /** The centre's loop: every blade it serves, up to the first it cannot write for. */
    method WriteServed(serve: Blade -> bool, accept: Blade -> bool, make: Blade -> Record, inventory: seq<Blade>)
      returns (done: nat, written: seq<string>, want: set<string>)
      modifies this
      ensures done <= |inventory| && AllAccepted(serve, accept, inventory[..done])
      ensures done < |inventory| ==> serve(inventory[done]) && !accept(inventory[done])
      ensures want == Names(FilterMap(serve, make, inventory[..done]))
      ensures (files, written) == WriteAll(old(files), FilterMap(serve, make, inventory[..done]))
    {
      done, written, want := 0, [], {};
      while done < |inventory|
        invariant done <= |inventory| && AllAccepted(serve, accept, inventory[..done])
        invariant want == Names(FilterMap(serve, make, inventory[..done]))
        invariant (files, written) == WriteAll(old(files), FilterMap(serve, make, inventory[..done]))
      {
        var b := inventory[done];
        NextRecord(serve, make, old(files), inventory, done);
        if serve(b) {
          if !accept(b) { return; }
          var r := make(b);
          want := want + {r.name};
          written := Put(r, written);
        }
        assert inventory[..done + 1] == inventory[..done] + [b];
        assert AllAccepted(serve, accept, inventory[..done + 1]);
        done := done + 1;
      }
    }

    /** syncDHCP where the centre serves the wire. On the first blade it cannot write for it stops, with the files of
        the blades before that one written and nothing removed. */
    method SyncDhcp(check: Validator, prefix: int -> string, inventory: seq<Blade>, local: int)
      returns (done: nat, written: seq<string>, removed: set<string>)
      modifies this
      ensures done <= |inventory| &&
              (forall i :: 0 <= i < done && Served(inventory[i], local) ==> CentreAccepts(check, prefix, inventory[i]))
      ensures done < |inventory| ==> Served(inventory[done], local) && !CentreAccepts(check, prefix, inventory[done])
      ensures var recs := CentreRecords(prefix, inventory[..done], local);
              var (f, names) := WriteAll(old(files), recs);
              && written == names && removed == (if done == |inventory| then Orphans(f, Names(recs)) else {})
              && files == if done == |inventory| then Reconciled(old(files), recs) else f
    {
      var serve, accept := (b: Blade) => Served(b, local), (b: Blade) => CentreAccepts(check, prefix, b);
      var want;
      done, written, want := WriteServed(serve, accept, (b: Blade) => CentreRecord(prefix, b), inventory);
      removed := {};
      assert forall i :: 0 <= i < done ==>
             inventory[..done][i] == inventory[i] && (serve(inventory[i]) ==> accept(inventory[i]));
      if done == |inventory| { removed := RemoveOrphans(want); }
    }
  }

  ghost predicate AllAccepted(serve: Blade -> bool, accept: Blade -> bool, inventory: seq<Blade>) {
    forall i :: 0 <= i < |inventory| && serve(inventory[i]) ==> accept(inventory[i])
  }

  lemma SiteNext(check: Validator, files: Files, entries: seq<Entry>, k: nat)
    requires k < |entries|
    ensures Continues(files, SiteRecords(check, entries[..k]), SiteRecords(check, entries[..k + 1]),
            Accepts(check, entries[k]), SiteRecord(entries[k]))
  {
    NextRecord((e: Entry) => Accepts(check, e), SiteRecord, files, entries, k);
  }

  lemma NextRecord<T>(keep: T -> bool, make: T -> Record, files: Files, xs: seq<T>, k: nat)
    requires k < |xs|
    ensures Continues(files, FilterMap(keep, make, xs[..k]), FilterMap(keep, make, xs[..k + 1]), keep(xs[k]),
            make(xs[k]))
  {
    FilterMapNext(keep, make, xs, k);
    OneMoreRecord(files, FilterMap(keep, make, xs[..k]), make(xs[k]));
  }

  /** One turn of a writer's loop. */
  ghost predicate Continues(files: Files, recs: seq<Record>, more: seq<Record>, wanted: bool, r: Record) {
    if !wanted then more == recs
    else
      var (f, written) := WriteAll(files, recs);
      Names(more) == Names(recs) + {r.name} && WriteAll(files, more) == WriteOne(f, written, r)
  }

  lemma OneMoreRecord(files: Files, recs: seq<Record>, r: Record)
    ensures Names(recs + [r]) == Names(recs) + {r.name}
    ensures var (f, written) := WriteAll(files, recs); WriteAll(files, recs + [r]) == WriteOne(f, written, r)
  {
    assert (recs + [r])[..|recs|] == recs;
    assert (recs + [r])[|recs|] == r;
  }
}
