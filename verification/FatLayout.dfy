/** Where things stand in a FAT16 image: boot sector, tables, root directory and data one behind the other, as the "Boot
    Sector and BPB" and "FAT Directory Structure" sections of Microsoft's FAT specification lay them out
    (site/fat.go). */
module FatLayout {
  import opened Wrappers
  import opened Fat16

  /** The tables, one behind the other. */
  function Flat(fats: seq<seq<byte>>): seq<byte> {
    if fats == [] then [] else fats[0] + Flat(fats[1..])
  }

  /** The boot sector and what it declares, field by field, low byte first. */
  datatype Volume = Volume(boot: seq<byte>, fats: seq<seq<byte>>, root: seq<byte>, data: seq<byte>,
                           sector: nat, perCluster: nat, entries: nat, perFat: nat)

  function Bytes(v: Volume): seq<byte> {
    v.boot + Flat(v.fats) + v.root + v.data
  }

  function RootAt(v: Volume): nat {
    |v.boot| + |Flat(v.fats)|
  }

  /** Two bytes, the low one first. */
  predicate Says(s: seq<byte>, at: nat, n: nat) {
    at + 2 <= |s| && (s[at] as int) + 256 * (s[at + 1] as int) == n
  }

  /** Four bytes, the lowest first. */
  predicate Says32(s: seq<byte>, at: nat, n: nat) {
    at + 4 <= |s| &&
    (s[at] as int) + 256 * (s[at + 1] as int) + 65536 * (s[at + 2] as int) + 16777216 * (s[at + 3] as int) == n
  }

  /** The lengths are the ones declared. The root directory fills its sectors, and no sector more. */
  ghost predicate AsDeclared(v: Volume) {
    && |v.boot| >= 24 && |Bytes(v)| >= 512 && |v.data| > 0
    && v.sector > 0 && Says(v.boot, 11, v.sector)
    && v.perCluster > 0 && v.boot[13] == v.perCluster
    && (exists reserved: nat :: Says(v.boot, 14, reserved) && |v.boot| == Times(reserved, v.sector))
    && |v.fats| > 0 && v.boot[16] == |v.fats|
    && Says(v.boot, 17, v.entries)
    && v.perFat > 0 && Says(v.boot, 22, v.perFat)
    && (forall i :: 0 <= i < |v.fats| ==> |v.fats[i]| == Times(v.perFat, v.sector))
    && 32 * v.entries <= |v.root| < 32 * v.entries + v.sector
    && exists q: nat :: |v.root| == Times(q, v.sector)
  }

  lemma {:induction false} FlatLength(fats: seq<seq<byte>>, n: nat)
    requires forall i :: 0 <= i < |fats| ==> |fats[i]| == n
    ensures |Flat(fats)| == Times(|fats|, n)
  {
    if fats != [] {
      FlatLength(fats[1..], n);
      assert Times(|fats|, n) == n + Times(|fats| - 1, n);
    }
  }

  lemma Distribute(a: nat, b: nat, c: nat, d: nat)
    ensures Times(a + Times(b, c), d) == Times(a, d) + Times(b, Times(c, d))
  {
    assert (a + b * c) * d == a * d + (b * c) * d;
    assert (b * c) * d == b * (c * d);
  }

  /** Rounding up finds the number of sectors that just hold so many bytes. */
  lemma CeilingIs(n: nat, d: nat, q: nat)
    requires d > 0 && n <= Times(q, d) < n + d
    ensures (n + d - 1) / d == q
  {
    var k := (n + d - 1) / d;
    var r := (n + d - 1) % d;
    assert n + d - 1 == Times(k, d) + r;
    if k < q { OneMoreStep(k, q, d); }
    if k > q { OneMoreStep(q, k, d); }
  }

  /** Every volume laid out as its boot sector declares, with however many tables, opens with the root directory right
      behind the tables and the data right behind the root directory. */
  lemma OpensAsLaidOut(v: Volume)
    requires AsDeclared(v)
    ensures Open(Bytes(v)) == Some(Geometry(v.sector, v.perCluster, RootAt(v), v.entries, RootAt(v) + |v.root|))
  {
    var s := Bytes(v);
    assert s[..|v.boot|] == v.boot;
    assert U16(s, 11) == v.sector && U16(s, 17) == v.entries && U16(s, 22) == v.perFat && s[13] == v.perCluster;
    var reserved: nat :| Says(v.boot, 14, reserved) && |v.boot| == Times(reserved, v.sector);
    assert U16(s, 14) == reserved && s[16] == |v.fats|;
    FlatLength(v.fats, Times(v.perFat, v.sector));
    Distribute(reserved, |v.fats|, v.perFat, v.sector);
    assert Times(reserved + Times(|v.fats|, v.perFat), v.sector) == RootAt(v);
    var q: nat :| |v.root| == Times(q, v.sector);
    CeilingIs(32 * v.entries, v.sector, q);
    assert RootSectors(v.entries, v.sector) == q;
  }

  /** The root directory and the data stand at these places of the bytes. */
  ghost predicate PartsStand(v: Volume, s: seq<byte>, rootAt: nat) {
    && rootAt + |v.root| + |v.data| == |s|
    && s[rootAt..rootAt + |v.root|] == v.root && s[rootAt + |v.root|..] == v.data
  }

  lemma LaidOutPartsStand(v: Volume)
    ensures PartsStand(v, Bytes(v), RootAt(v))
  {
    var front := v.boot + Flat(v.fats);
    var s := Bytes(v);
    assert s == front + (v.root + v.data);
    assert s[RootAt(v)..] == v.root + v.data;
  }

  /** A piece of a piece. */
  lemma PieceOf(s: seq<byte>, from: nat, part: seq<byte>, i: nat, j: nat)
    requires from + |part| <= |s| && s[from..from + |part|] == part && i <= j <= |part|
    ensures s[from + i..from + j] == part[i..j]
  {
    forall k | 0 <= k < j - i ensures s[from + i..from + j][k] == part[i..j][k] {
      ByteOf(s, from, part, i + k);
    }
  }

  lemma ByteOf(s: seq<byte>, from: nat, part: seq<byte>, k: nat)
    requires from + |part| <= |s| && s[from..from + |part|] == part && k < |part|
    ensures s[from + k] == part[k]
  {
    assert s[from..from + |part|][k] == s[from + k];
  }

  /** Entry i of the root directory is a live file of this name, and no entry before it ends the search or is one. */
  ghost predicate EntryStands(v: Volume, name: seq<byte>, i: nat) {
    && i < v.entries && 32 * v.entries <= |v.root|
    && LiveFile(v.root, Fat83(name), 32 * i)
    && forall j: nat :: j < i ==> Passed(v.root, Fat83(name), j)
  }

  /** Entry j neither ends the search nor is what is searched for. */
  predicate Passed(root: seq<byte>, want: seq<byte>, j: nat)
    requires 32 * j + 32 <= |root|
  {
    root[32 * j] != 0x00 && !LiveFile(root, want, 32 * j)
  }

  /** A file's entry: not free, not deleted, neither a volume label nor part of a long name (bit 3), with this name. */
  predicate LiveFile(root: seq<byte>, want: seq<byte>, at: nat)
    requires at + 32 <= |root|
  {
    && root[at] != 0x00 && root[at] != 0xE5 && root[at + 11] / 8 % 2 == 0
    && root[at..at + 11] == want
  }

  /** The entry declares this length and first cluster, and the content stands there. */
  ghost predicate ContentStands(v: Volume, i: nat, cluster: nat, content: seq<byte>)
    requires 32 * i + 32 <= |v.root|
  {
    var at := 32 * i;
    var size := Times(v.perCluster, v.sector);
    && cluster >= 2 && Says(v.root, at + 26, cluster)
    && Says32(v.root, at + 28, |content|)
    && |content| <= size && Times(cluster - 2, size) + |content| <= |v.data|
    && v.data[Times(cluster - 2, size)..Times(cluster - 2, size) + |content|] == content
  }

  /** A file whose entry stands in the root directory and whose bytes stand in its cluster is read back, for any
      number of tables. */
  lemma FileIsRead(v: Volume, name: seq<byte>, i: nat, cluster: nat, content: seq<byte>)
    requires AsDeclared(v) && EntryStands(v, name, i) && ContentStands(v, i, cluster, content)
    ensures Read(Bytes(v), name) == Content(content)
  {
    var s := Bytes(v);
    var g := Geometry(v.sector, v.perCluster, RootAt(v), v.entries, RootAt(v) + |v.root|);
    OpensAsLaidOut(v);
    LaidOutPartsStand(v);
    SearchArrives(v, s, g, Fat83(name), i, 0);
    ReadThrough(s, g, name, i);
    EntryIsRead(v, s, g, i, cluster, content);
  }

  lemma EntryStep(v: Volume, s: seq<byte>, g: Geometry, want: seq<byte>, j: nat)
    requires |want| == 11 && j < v.entries == g.rootEntries && 32 * v.entries <= |v.root|
    requires PartsStand(v, s, g.rootOff)
    ensures Passed(v.root, want, j) ==>
              FindFrom(s, g, want, j) == FindFrom(s, g, want, j + 1)
    ensures LiveFile(v.root, want, 32 * j) ==> FindFrom(s, g, want, j) == Some(j)
  {
    var at, off := 32 * j, EntryAt(g, j);
    PieceOf(s, g.rootOff, v.root, at, at + 11);
    ByteOf(s, g.rootOff, v.root, at);
    ByteOf(s, g.rootOff, v.root, at + 11);
    AttributeIsBit3(s[off + 11]);
  }

  lemma {:induction false} SearchArrives(v: Volume, s: seq<byte>, g: Geometry, want: seq<byte>, i: nat, j: nat)
    requires |want| == 11 && i < v.entries == g.rootEntries && 32 * v.entries <= |v.root| && j <= i
    requires PartsStand(v, s, g.rootOff) && LiveFile(v.root, want, 32 * i)
    requires forall k: nat :: k < i ==> Passed(v.root, want, k)
    ensures FindFrom(s, g, want, j) == Some(i)
    decreases i - j
  {
    EntryStep(v, s, g, want, j);
    if j < i { SearchArrives(v, s, g, want, i, j + 1); }
  }

  lemma AttributeIsBit3(a: byte)
    ensures NotAFile(a) <==> a / 8 % 2 == 1
  {
  }

  lemma EntryIsRead(v: Volume, s: seq<byte>, g: Geometry, i: nat, cluster: nat, content: seq<byte>)
    requires g.bytesPerSec == v.sector && g.secPerClus == v.perCluster && g.dataOff == g.rootOff + |v.root|
    requires 32 * i + 32 <= |v.root| && ContentStands(v, i, cluster, content) && PartsStand(v, s, g.rootOff)
    ensures EntryAt(g, i) + 32 <= |s| && ReadEntry(s, g, i) == Content(content)
  {
    EntryFields(v, s, g, i, cluster, |content|);
    var from := Times(cluster - 2, ClusterSize(g));
    assert ClusterStart(g, cluster) == g.dataOff + from;
    assert s[g.dataOff..g.dataOff + |v.data|] == v.data;
    PieceOf(s, g.dataOff, v.data, from, from + |content|);
  }

  lemma EntryFields(v: Volume, s: seq<byte>, g: Geometry, i: nat, cluster: nat, length: nat)
    requires 32 * i + 32 <= |v.root| && PartsStand(v, s, g.rootOff) && Says(v.root, 32 * i + 26, cluster)
    requires Says32(v.root, 32 * i + 28, length)
    ensures EntryAt(g, i) + 32 <= |s| && Cluster(s, g, i) == cluster && Length(s, g, i) == length
  {
    var part := v.root;
    assert s[g.rootOff..g.rootOff + |part|] == part;
    SaysElsewhere(s, g.rootOff, part, 32 * i + 26, cluster);
    SaysElsewhere32(s, g.rootOff, part, 32 * i + 28, length);
  }

  lemma SaysElsewhere(s: seq<byte>, from: nat, part: seq<byte>, at: nat, n: nat)
    requires from + |part| <= |s| && s[from..from + |part|] == part && Says(part, at, n)
    ensures U16(s, from + at) == n
  {
    ByteOf(s, from, part, at);
    ByteOf(s, from, part, at + 1);
  }

  lemma SaysElsewhere32(s: seq<byte>, from: nat, part: seq<byte>, at: nat, n: nat)
    requires from + |part| <= |s| && s[from..from + |part|] == part && Says32(part, at, n)
    ensures U32(s, from + at) == n
  {
    ByteOf(s, from, part, at);
    ByteOf(s, from, part, at + 1);
    ByteOf(s, from, part, at + 2);
    ByteOf(s, from, part, at + 3);
  }

  /** A file of the volume can be rewritten exactly if the new content fits one cluster and its whole cluster lies in
      the data. */
  lemma FileIsPatchedIff(v: Volume, name: seq<byte>, i: nat, cluster: nat, length: nat, content: seq<byte>)
    requires AsDeclared(v) && EntryStands(v, name, i)
    requires Says(v.root, 32 * i + 26, cluster) && Says32(v.root, 32 * i + 28, length)
    ensures var size := Times(v.perCluster, v.sector);
            PatchFile(Bytes(v), name, content).Some? <==>
            cluster >= 2 && |content| <= size && Times(cluster - 2, size) + size <= |v.data|
  {
    var s := Bytes(v);
    var g := Geometry(v.sector, v.perCluster, RootAt(v), v.entries, RootAt(v) + |v.root|);
    OpensAsLaidOut(v);
    LaidOutPartsStand(v);
    SearchArrives(v, s, g, Fat83(name), i, 0);
    EntryFields(v, s, g, i, cluster, length);
    OpenIsSound(s);
    if cluster >= 2 { StartOf(g, cluster); }
  }

  lemma StartOf(g: Geometry, cluster: nat)
    requires cluster >= 2
    ensures ClusterStart(g, cluster) == g.dataOff + Times(cluster - 2, ClusterSize(g))
  {
  }

  /** What is not accepted at all. */
  lemma NotAnImage(s: seq<byte>)
    requires |s| < 512 || Says(s, 11, 0) || s[13] == 0 || s[16] == 0 || Says(s, 22, 0)
    ensures Open(s) == None
  {
  }

  // ---- Names, byte by byte ----

  /** The piece, letters in upper case, and blanks where there is nothing. */
  ghost predicate Filled(f: seq<byte>, piece: seq<byte>, n: nat) {
    && |f| == n && |piece| <= n
    && (forall i :: 0 <= i < |piece| ==> f[i] == if 97 <= piece[i] <= 122 then piece[i] - 32 else piece[i])
    && (forall i :: |piece| <= i < n ==> f[i] == 32)
  }

  /** A base of at most eight bytes and an extension of at most three, with a dot between, fill eight bytes and three.
      */
  lemma Fat83Bytes(base: seq<byte>, ext: seq<byte>)
    requires |base| <= 8 && |ext| <= 3 && 46 !in base
    ensures var f := Fat83(base + [46] + ext); Filled(f[..8], base, 8) && Filled(f[8..], ext, 3)
  {
    var name := base + [46] + ext;
    var u := UpperAll(name);
    assert name[|base|] == 46;
    forall i | 0 <= i < |base| ensures u[i] == Upper(base[i]) && u[i] != 46 {
      assert name[i] == base[i] && base[i] in base;
    }
    DotIsAt(u, |base|);
    UpperParts(base, ext, u);
    var f := Fat83(name);
    assert f == Pad(u[..|base|], 8) + Pad(u[|base| + 1..], 3);
    assert f[..8] == Pad(u[..|base|], 8) && f[8..] == Pad(u[|base| + 1..], 3);
    PadFilled(base, u[..|base|], 8);
    PadFilled(ext, u[|base| + 1..], 3);
  }

  lemma UpperParts(base: seq<byte>, ext: seq<byte>, u: seq<byte>)
    requires u == UpperAll(base + [46] + ext)
    ensures u[..|base|] == UpperAll(base) && u[|base| + 1..] == UpperAll(ext)
  {
    var name := base + [46] + ext;
    forall i | 0 <= i < |ext| ensures u[|base| + 1..][i] == UpperAll(ext)[i] {
      assert name[|base| + 1 + i] == ext[i];
    }
    forall i | 0 <= i < |base| ensures u[..|base|][i] == UpperAll(base)[i] {
      assert name[i] == base[i];
    }
  }

  lemma PadFilled(piece: seq<byte>, upper: seq<byte>, n: nat)
    requires upper == UpperAll(piece) && |piece| <= n
    ensures Filled(Pad(upper, n), piece, n)
  {
  }

  lemma {:induction false} DotIsAt(u: seq<byte>, d: nat)
    requires d < |u| && u[d] == 46 && forall i :: 0 <= i < d ==> u[i] != 46
    ensures DotAt(u) == d
  {
    if d > 0 { DotIsAt(u[1..], d - 1); }
  }
}
