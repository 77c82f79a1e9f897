/** What the text of a reservation says: the fields of its line, and the addresses and names made up from a blade's
    position (server/ipam.go, site/dhcp.go). */
module ReservationText {
  import opened Wrappers
  import opened Reservations
  import Centre

  // ---- Fields ----

  /** The text up to the first comma, and the rest, field by field. */
  function Fields(s: string): seq<string> {
    if ',' !in s then [s] else [s[..CommaAt(s)]] + Fields(s[CommaAt(s) + 1..])
  }

  function CommaAt(s: string): (k: nat)
    requires ',' in s
    ensures k < |s| && s[k] == ',' && ',' !in s[..k]
  {
    if s[0] == ',' then 0
    else
      assert s == [s[0]] + s[1..];
      var k := 1 + CommaAt(s[1..]);
      assert s[..k] == [s[0]] + s[1..][..k - 1];
      k
  }

  /** A text has one first place of a character, and so one way to be cut there. */
  lemma {:induction false} CutOnce(a: string, x: string, b: string, y: string, c: char)
    requires c !in a && c !in b && a + [c] + x == b + [c] + y
    ensures a == b && x == y
  {
    var u, w := a + [c] + x, b + [c] + y;
    assert u[0] == (if a == "" then c else a[0]) && w[0] == if b == "" then c else b[0];
    assert (a != "" ==> a[0] in a) && (b != "" ==> b[0] in b);
    if a != "" && b != "" {
      assert u[1..] == a[1..] + [c] + x && w[1..] == b[1..] + [c] + y;
      CutOnce(a[1..], x, b[1..], y, c);
      assert a == [a[0]] + a[1..] && b == [b[0]] + b[1..];
    } else {
      assert u[1..] == x && w[1..] == y;
    }
  }

  lemma FieldFirst(field: string, rest: string)
    requires ',' !in field
    ensures Fields(field + "," + rest) == [field] + Fields(rest)
  {
    var s := field + "," + rest;
    assert s[|field|] == ',';
    var k := CommaAt(s);
    assert s == s[..k] + [','] + s[k + 1..];
    CutOnce(field, rest, s[..k], s[k + 1..], ',');
  }

  lemma LastFields(host: string, ip: string)
    requires ',' !in host && ',' !in ip
    ensures Fields(host + "," + (ip + "," + "infinite")) == [host, ip, "infinite"]
  {
    FieldFirst(host, ip + "," + "infinite");
    FieldFirst(ip, "infinite");
    assert Fields("infinite") == ["infinite"];
  }

  lemma TagIsAField()
    ensures "set:bootnet," == "set:bootnet" + "," && ',' !in "set:bootnet"
  {
  }

  lemma FieldsWithTag(mac: string, tag: string, word: string, rest: string)
    requires tag == word + "," && ',' !in word && ',' !in mac
    ensures Fields(mac + "," + (tag + rest)) == [mac] + ([word] + Fields(rest))
  {
    FieldFirst(mac, tag + rest);
    FieldFirst(word, rest);
    assert tag + rest == word + "," + rest;
  }

  lemma HostLineParts(mac: string, tag: string, host: string, ip: string)
    ensures mac + "," + tag + host + "," + ip + ",infinite" == mac + "," +
            (tag + (host + "," + (ip + "," + "infinite")))
  {
  }

  /** A host record as dnsmasq reads it: hardware address, the tag if the blade is to boot over the network, host name,
      address, and a lease without end. */
  lemma FieldsOfHostLine(mac: string, netboot: bool, host: string, ip: string)
    requires ',' !in mac && ',' !in host && ',' !in ip
    ensures Fields(HostLine(mac, netboot, host, ip)) ==
            [mac] + (if netboot then ["set:bootnet"] else []) + [host, ip, "infinite"]
  {
    LastFields(host, ip);
    if netboot { TaggedLine(mac, host, ip); } else { PlainLine(mac, host, ip); }
  }

  lemma TaggedLine(mac: string, host: string, ip: string)
    requires ',' !in mac
    ensures Fields(HostLine(mac, true, host, ip)) ==
            [mac] + (["set:bootnet"] + Fields(host + "," + (ip + "," + "infinite")))
  {
    TagIsAField();
    HostLineParts(mac, "set:bootnet,", host, ip);
    FieldsWithTag(mac, "set:bootnet,", "set:bootnet", host + "," + (ip + "," + "infinite"));
  }

  lemma PlainLine(mac: string, host: string, ip: string)
    requires ',' !in mac
    ensures Fields(HostLine(mac, false, host, ip)) == [mac] + Fields(host + "," + (ip + "," + "infinite"))
  {
    var rest := host + "," + (ip + "," + "infinite");
    HostLineParts(mac, "", host, ip);
    assert "" + rest == rest;
    FieldFirst(mac, rest);
  }

  // ---- Numbers ----

  predicate IsDigit(c: char) {
    '0' <= c <= '9'
  }

  /** The number a string of decimal digits stands for. */
  function Value(s: string): int {
    if s == "" then 0 else 10 * Value(s[..|s| - 1]) + (s[|s| - 1] as int - '0' as int)
  }

  lemma {:induction false} DecimalValue(n: nat)
    ensures Value(Decimal(n)) == n && |Decimal(n)| > 0 && forall i :: 0 <= i < |Decimal(n)| ==> IsDigit(Decimal(n)[i])
  {
    DigitValue(n % 10);
    if n < 10 {
      assert Decimal(n)[..0] == "";
    } else {
      DecimalValue(n / 10);
      assert Decimal(n)[..|Decimal(n)| - 1] == Decimal(n / 10);
    }
  }

  lemma DigitValue(d: nat)
    requires d < 10
    ensures IsDigit(Digit(d)) && Digit(d) as int - '0' as int == d
  {
  }

  lemma TwoDigitsValue(n: nat)
    ensures var s := TwoDigits(n); Value(s) == n && |s| >= 2 && forall i :: 0 <= i < |s| ==> IsDigit(s[i])
  {
    DecimalValue(n);
    if n < 10 {
      DigitValue(n);
      var s := TwoDigits(n);
      assert s == "0" + Decimal(n) && s[..1] == "0" && "0"[..0] == "";
    } else {
      DecimalValue(n / 10);
    }
  }

  function HexValue(c: char): int {
    if IsDigit(c) then c as int - '0' as int else c as int - 'a' as int + 10
  }

  lemma LowByteValue(n: int)
    ensures |LowByte(n)| == 2 && 16 * HexValue(LowByte(n)[0]) + HexValue(LowByte(n)[1]) == n % 256
  {
    HexDigit(n % 256 / 16);
    HexDigit(n % 16);
  }

  lemma HexDigit(d: nat)
    requires d < 16
    ensures HexValue(Digit(d)) == d
  {
  }

  // ---- Addresses and names from a position ----

  /** The made-up hardware address holds the low bytes of site, unit and slot, in this order, behind a fixed beginning.
      */
  lemma MacMeans(site: int, rack: int, slot: int)
    ensures var m := BladeMac(site, rack, slot);
            && |m| == 17 && m[..9] == "02:b1:ad:" && m[11] == ':' && m[14] == ':'
            && 16 * HexValue(m[9]) + HexValue(m[10]) == site % 256
            && 16 * HexValue(m[12]) + HexValue(m[13]) == rack % 256
            && 16 * HexValue(m[15]) + HexValue(m[16]) == slot % 256
  {
    LowByteValue(site);
    LowByteValue(rack);
    LowByteValue(slot);
  }

  function Head(prefix: string): string {
    if prefix != "" then "blade-" + prefix + "-r" else "blade-r"
  }

  lemma NameParts(prefix: string, rack: nat, slot: nat)
    ensures BladeHostname(prefix, rack, slot) == Head(prefix) + (Decimal(rack) + "s" + TwoDigits(slot))
  {
  }

  lemma DropHead(head: string, x: string, y: string)
    requires head + x == head + y
    ensures x == y
  {
    assert (head + x)[|head|..] == x && (head + y)[|head|..] == y;
  }

  lemma PlaceText(rack: nat, slot: nat, rack': nat, slot': nat)
    requires Decimal(rack) + "s" + TwoDigits(slot) == Decimal(rack') + "s" + TwoDigits(slot')
    ensures rack == rack' && slot == slot'
  {
    DecimalValue(rack);
    DecimalValue(rack');
    CutOnce(Decimal(rack), TwoDigits(slot), Decimal(rack'), TwoDigits(slot'), 's');
    TwoDigitsValue(slot);
    TwoDigitsValue(slot');
  }

  /** Under one prefix two positions have one name only if they are one. */
  lemma NamesTellPlaces(prefix: string, rack: nat, slot: nat, rack': nat, slot': nat)
    ensures BladeHostname(prefix, rack, slot) == BladeHostname(prefix, rack', slot') <==> rack == rack' && slot == slot'
  {
    if BladeHostname(prefix, rack, slot) == BladeHostname(prefix, rack', slot') {
      var x, y := Decimal(rack) + "s" + TwoDigits(slot), Decimal(rack') + "s" + TwoDigits(slot');
      NameParts(prefix, rack, slot);
      NameParts(prefix, rack', slot');
      DropHead(Head(prefix), x, y);
      PlaceText(rack, slot, rack', slot');
    }
  }

  /** The name begins with the site's prefix, where it has one, and goes on with the unit's number. */
  lemma NameBegins(prefix: string, rack: nat, slot: nat)
    ensures var h := BladeHostname(prefix, rack, slot);
            (if prefix == "" then "blade-r" else "blade-" + prefix + "-r") + Decimal(rack) + "s" <= h
  {
  }

  /** What the document says of a blade in its place: an address or a name it has been given stays; only where there is
      none the position makes one up; and it boots over the network for an install, an erase or a firmware reading. */
  lemma EntryMeans(prefix: int -> string, b: Blade)
    requires Placed(b)
    ensures var e := EntryOf(prefix, b);
            && e.serial == b.serial && e.ip == b.ip && e.rack == b.rack.value.name && e.slot == b.slot.value
            && (b.mac != "" ==> e.mac == b.mac)
            && (b.mac == "" ==> e.mac == BladeMac(b.site, b.rack.value.index, b.slot.value))
            && (b.host != "" ==> e.host == b.host)
            && (b.host == "" ==> e.host == BladeHostname(prefix(b.site), b.rack.value.index, b.slot.value))
            && (e.netboot <==> b.install == Centre.Pending || b.install == Centre.Wipe || b.armed)
  {
  }
}
