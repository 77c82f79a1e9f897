/** Rewriting one file inside a bare FAT16 image, in place (site/fat.go). The layout is that of the
    "Boot Sector and BPB" and "FAT Directory Structure" sections of Microsoft's FAT specification. */
module Fat16 {
  import opened Wrappers

  type byte = x: int | 0 <= x < 256

  // ---- Little-endian numbers ----

  function U16(s: seq<byte>, at: nat): nat
    requires at + 2 <= |s|
  {
    (s[at] as int) + 256 * (s[at + 1] as int)
  }

  function U32(s: seq<byte>, at: nat): nat
    requires at + 4 <= |s|
  {
    (s[at] as int) + 256 * (s[at + 1] as int) + 65536 * (s[at + 2] as int) + 16777216 * (s[at + 3] as int)
  }

  function PutU32(n: nat): (b: seq<byte>)
    requires n < 0x1_0000_0000
    ensures |b| == 4 && U32(b, 0) == n
  {
    assert n / 65536 == n / 256 / 256 && n / 16777216 == n / 65536 / 256;
    [n % 256, n / 256 % 256, n / 65536 % 256, n / 16777216]
  }

  // ---- Geometry ----

  datatype Geometry = Geometry(
    bytesPerSec: nat, secPerClus: nat, rootOff: nat, rootEntries: nat, dataOff: nat)

  function Times(a: nat, b: nat): nat {
    a * b
  }

  function ClusterSize(g: Geometry): nat {
    Times(g.secPerClus, g.bytesPerSec)
  }

  /** Sectors the root directory takes: its 32-byte entries, rounded up. */
  function RootSectors(entries: nat, bytesPerSec: nat): nat
    requires bytesPerSec > 0
  {
    (entries * 32 + bytesPerSec - 1) / bytesPerSec
  }

  /** openFAT16: the geometry an image declares, if it is one. */
  function Open(s: seq<byte>): Option<Geometry> {
    if |s| < 512 then None
    else
      var bps, spc, reserved, fats, entries, perFat :=
        U16(s, 11), s[13], U16(s, 14), s[16], U16(s, 17), U16(s, 22);
      if bps == 0 || spc == 0 || fats == 0 || perFat == 0 then None
      else
        var rootOff := Times(reserved + Times(fats, perFat), bps);
        var dataOff := rootOff + Times(RootSectors(entries, bps), bps);
        if dataOff >= |s| then None else Some(Geometry(bps, spc, rootOff, entries, dataOff))
  }

  /** What every accepted image satisfies: the root directory lies behind the first byte and before the
      data, and the data begins inside the image. */
  predicate Sound(g: Geometry, size: nat) {
    && 0 < g.bytesPerSec < 65536 && 0 < g.secPerClus < 256
    && 0 < g.rootOff && g.rootOff + 32 * g.rootEntries <= g.dataOff < size
  }

  lemma CeilingCovers(n: nat, d: nat)
    requires d > 0
    ensures Times((n + d - 1) / d, d) >= n
  {
    var q, r := (n + d - 1) / d, (n + d - 1) % d;
    assert n + d - 1 == q * d + r;
  }

  lemma ProductPositive(a: nat, b: nat)
    requires a > 0 && b > 0
    ensures Times(a, b) > 0
  {
  }

  lemma OpenIsSound(s: seq<byte>)
    requires Open(s).Some?
    ensures Sound(Open(s).value, |s|)
  {
    var bps, fats, perFat := U16(s, 11), s[16], U16(s, 22);
    CeilingCovers(U16(s, 17) * 32, bps);
    ProductPositive(fats, perFat);
    ProductPositive(U16(s, 14) + Times(fats, perFat), bps);
  }

  // ---- Directory ----

  function EntryAt(g: Geometry, i: nat): nat {
    g.rootOff + 32 * i
  }

  /** Part of a long name (the four low bits set), or the volume label (bit 3). */
  predicate NotAFile(attributes: byte) {
    attributes % 16 == 15 || attributes / 8 % 2 == 1
  }

  /** The index of the entry with this name, looking from entry i on. */
  function FindFrom(s: seq<byte>, g: Geometry, want: seq<byte>, i: nat): (r: Option<nat>)
    ensures r.Some? ==> i <= r.value < g.rootEntries && EntryAt(g, r.value) + 32 <= |s|
    decreases g.rootEntries - i
  {
    if i >= g.rootEntries || EntryAt(g, i) + 32 > |s| then None
    else
      var off := EntryAt(g, i);
      if s[off] == 0x00 then None
      else if s[off] == 0xE5 || NotAFile(s[off + 11]) || s[off..off + 11] != want
      then FindFrom(s, g, want, i + 1)
      else Some(i)
  }

  /** A live file entry with this name. */
  predicate IsFile(s: seq<byte>, g: Geometry, want: seq<byte>, i: nat) {
    && EntryAt(g, i) + 32 <= |s|
    && s[EntryAt(g, i)] != 0x00 && s[EntryAt(g, i)] != 0xE5
    && !NotAFile(s[EntryAt(g, i) + 11])
    && s[EntryAt(g, i)..EntryAt(g, i) + 11] == want
  }

  /** The search finds exactly the first live entry with the name, provided nothing before it ends the
      directory. */
  lemma {:induction false} FindMeans(s: seq<byte>, g: Geometry, want: seq<byte>, i: nat, r: nat)
    requires Sound(g, |s|)
    ensures FindFrom(s, g, want, i) == Some(r) <==>
            && i <= r < g.rootEntries && IsFile(s, g, want, r)
            && forall j :: i <= j < r ==> s[EntryAt(g, j)] != 0x00 && !IsFile(s, g, want, j)
    decreases g.rootEntries - i
  {
    if i < g.rootEntries {
      FindMeans(s, g, want, i + 1, r);
    }
  }

  function Cluster(s: seq<byte>, g: Geometry, i: nat): nat
    requires EntryAt(g, i) + 32 <= |s|
  {
    U16(s, EntryAt(g, i) + 26)
  }

  function Length(s: seq<byte>, g: Geometry, i: nat): nat
    requires EntryAt(g, i) + 32 <= |s|
  {
    U32(s, EntryAt(g, i) + 28)
  }

  /** Where a cluster begins; meaningless, and possibly negative, below cluster 2. */
  function ClusterStart(g: Geometry, cluster: nat): int {
    g.dataOff + (cluster - 2) * ClusterSize(g)
  }

  // ---- Names ----

  const DOT: byte := 46
  const SPACE: byte := 32

  function Upper(b: byte): byte {
    if 97 <= b <= 122 then b - 32 else b
  }

  function UpperAll(name: seq<byte>): (r: seq<byte>)
    ensures |r| == |name| && forall i :: 0 <= i < |name| ==> r[i] == Upper(name[i])
  {
    seq(|name|, i requires 0 <= i < |name| => Upper(name[i]))
  }

  /** Where the first dot is, or the end. */
  function DotAt(name: seq<byte>): (i: nat)
    ensures i <= |name| && (i < |name| ==> name[i] == DOT) && DOT !in name[..i]
  {
    if name == [] then 0
    else if name[0] == DOT then 0
    else
      var i := 1 + DotAt(name[1..]);
      assert name[..i] == [name[0]] + name[1..][..i - 1];
      i
  }

  function Pad(b: seq<byte>, n: nat): (r: seq<byte>)
    ensures |r| == n && forall i :: 0 <= i < n ==> r[i] == if i < |b| then b[i] else SPACE
  {
    if |b| > n then b[..n] else b + seq(n - |b|, _ => SPACE)
  }

  /** fat83: the eleven bytes FAT stores for a name. */
  function Fat83(name: seq<byte>): (r: seq<byte>)
    ensures |r| == 11
  {
    var u := UpperAll(name);
    var d := DotAt(u);
    Pad(u[..d], 8) + Pad(if d < |u| then u[d + 1..] else [], 3)
  }

  /** A name that fits what FAT stores: at most eight bytes, and after a dot one to three, none of them a blank. */
  predicate Short(name: seq<byte>) {
    && SPACE !in UpperAll(name) && DotAt(UpperAll(name)) <= 8
    && (DotAt(UpperAll(name)) < |name| ==> 1 <= |name| - DotAt(UpperAll(name)) - 1 <= 3)
  }

  lemma PadMarks(a: seq<byte>, n: nat, i: nat)
    requires |a| <= n && SPACE !in a && i < n
    ensures Pad(a, n)[i] == SPACE <==> i >= |a|
  {
    if i < |a| { assert a[i] in a; }
  }

  lemma PadTells(a: seq<byte>, b: seq<byte>, n: nat)
    requires |a| <= n && |b| <= n && SPACE !in a && SPACE !in b && Pad(a, n) == Pad(b, n)
    ensures a == b
  {
    if |a| < n {
      PadMarks(a, n, |a|);
      PadMarks(b, n, |a|);
    }
    if |b| < n {
      PadMarks(a, n, |b|);
      PadMarks(b, n, |b|);
    }
    assert |a| == |b|;
    forall i | 0 <= i < |a| ensures a[i] == b[i] { assert Pad(a, n)[i] == a[i] && Pad(b, n)[i] == b[i]; }
  }

  /** The part before the dot and the part after it. */
  function BaseOf(u: seq<byte>): seq<byte> {
    u[..DotAt(u)]
  }

  function ExtOf(u: seq<byte>): seq<byte> {
    if DotAt(u) < |u| then u[DotAt(u) + 1..] else []
  }

  lemma CutAt(u: seq<byte>, d: nat)
    requires d < |u|
    ensures u == u[..d] + [u[d]] + u[d + 1..]
  {
  }

  lemma NameParts(u: seq<byte>)
    ensures u == if DotAt(u) < |u| then BaseOf(u) + [DOT] + ExtOf(u) else BaseOf(u)
  {
    var d := DotAt(u);
    if d < |u| { CutAt(u, d); }
  }

  /** Names that fit have the same eleven bytes exactly if they are the same but for case. */
  lemma Fat83TellsNames(a: seq<byte>, b: seq<byte>)
    requires Short(a) && Short(b)
    ensures Fat83(a) == Fat83(b) <==> UpperAll(a) == UpperAll(b)
  {
    var u, v := UpperAll(a), UpperAll(b);
    if Fat83(a) == Fat83(b) {
      assert Fat83(a)[..8] == Pad(BaseOf(u), 8) && Fat83(b)[..8] == Pad(BaseOf(v), 8);
      assert Fat83(a)[8..] == Pad(ExtOf(u), 3) && Fat83(b)[8..] == Pad(ExtOf(v), 3);
      PadTells(BaseOf(u), BaseOf(v), 8);
      PadTells(ExtOf(u), ExtOf(v), 3);
      NameParts(u);
      NameParts(v);
    }
  }

  // ---- Replacing and reading ----

  datatype Error = NotInImage | NoCluster | TooLong | PastTheEnd

  datatype Patch = Patched(bytes: seq<byte>) | Refused(error: Error)

  function Overlay(s: seq<byte>, at: nat, b: seq<byte>): (r: seq<byte>)
    requires at + |b| <= |s|
    ensures |r| == |s|
    ensures forall i :: 0 <= i < |s| ==> r[i] == if at <= i < at + |b| then b[i - at] else s[i]
  {
    s[..at] + b + s[at + |b|..]
  }

  /** The cluster after the write: the content, then zeros. */
  function Cleared(content: seq<byte>, size: nat): (r: seq<byte>)
    requires |content| <= size
    ensures |r| == size
    ensures forall i :: 0 <= i < size ==> r[i] == if i < |content| then content[i] else 0
  {
    content + seq(size - |content|, _ => 0)
  }

  /** Why replace refuses, if it does; otherwise the entry it writes to. */
  function Target(s: seq<byte>, g: Geometry, name: seq<byte>, content: seq<byte>): (r: (Option<Error>, nat))
    requires Sound(g, |s|)
    ensures r.0.None? ==>
              && r.1 < g.rootEntries && EntryAt(g, r.1) + 32 <= |s| && Cluster(s, g, r.1) >= 2
              && |content| <= ClusterSize(g) && ClusterStart(g, Cluster(s, g, r.1)) + ClusterSize(g) <= |s|
  {
    var found := FindFrom(s, g, Fat83(name), 0);
    if found.None? then (Some(NotInImage), 0)
    else
      var c := Cluster(s, g, found.value);
      if c < 2 then (Some(NoCluster), 0)
      else if |content| > ClusterSize(g) then (Some(TooLong), 0)
      else if ClusterStart(g, c) + ClusterSize(g) > |s| then (Some(PastTheEnd), 0)
      else (None, found.value)
  }

  lemma ClusterFits(a: nat, b: nat)
    requires a < 256 && b < 65536
    ensures Times(a, b) <= 256 * b
  {
    assert 256 * b == Times(a, b) + Times(256 - a, b);
  }

  lemma ClusterBounds(g: Geometry, cluster: nat, size: nat)
    requires Sound(g, size) && cluster >= 2
    ensures ClusterStart(g, cluster) >= g.dataOff
    ensures 0 < ClusterSize(g) < 0x1_0000_0000
  {
    ProductPositive(g.secPerClus, g.bytesPerSec);
    ClusterFits(g.secPerClus, g.bytesPerSec);
    assert (cluster - 2) * ClusterSize(g) == Times(cluster - 2, ClusterSize(g));
  }

  /** The cluster is written first, then the length. */
  function TwoWrites(s: seq<byte>, start: nat, size: nat, content: seq<byte>, at: nat): (t: seq<byte>)
    requires start + size <= |s| && |content| <= size < 0x1_0000_0000 && at + 4 <= |s|
    ensures |t| == |s|
    ensures forall k :: 0 <= k < |s| && !(at <= k < at + 4) && !(start <= k < start + size) ==> t[k] == s[k]
    ensures at + 4 <= start ==> U32(t, at) == |content| && t[start..start + |content|] == content
  {
    var n := PutU32(|content|);
    var written := Overlay(s, start, Cleared(content, size));
    var t := Overlay(written, at, n);
    assert t[at] == n[0] && t[at + 1] == n[1] && t[at + 2] == n[2] && t[at + 3] == n[3];
    t
  }

  ghost predicate Planned(s: seq<byte>, start: nat, size: nat, content: seq<byte>, at: nat, t: seq<byte>) {
    && start + size <= |s| && |content| <= size < 0x1_0000_0000 && at + 4 <= |s|
    && t == TwoWrites(s, start, size, content, at)
  }

  /** replace on the bytes of an image with this geometry. */
  function Replace(s: seq<byte>, g: Geometry, name: seq<byte>, content: seq<byte>): Patch
    requires Sound(g, |s|)
  {
    var (refusal, i) := Target(s, g, name, content);
    if refusal.Some? then Refused(refusal.value)
    else
      ClusterBounds(g, Cluster(s, g, i), |s|);
      Patched(TwoWrites(s, ClusterStart(g, Cluster(s, g, i)), ClusterSize(g), content, EntryAt(g, i) + 28))
  }

  ghost predicate Located(s: seq<byte>, g: Geometry, name: seq<byte>, content: seq<byte>, refusal: Option<Error>,
      entry: nat, start: nat)
    requires Sound(g, |s|)
  {
    var (r, i) := Target(s, g, name, content);
    refusal == r && (refusal.None? ==> entry == EntryAt(g, i) && start == ClusterStart(g, Cluster(s, g, i)))
  }

  lemma ReplaceFollows(s: seq<byte>, g: Geometry, name: seq<byte>, content: seq<byte>, refusal: Option<Error>,
      entry: nat, start: nat)
    returns (t: seq<byte>)
    requires Sound(g, |s|) && Located(s, g, name, content, refusal, entry, start)
    ensures Replace(s, g, name, content) == if refusal.Some? then Refused(refusal.value) else Patched(t)
    ensures refusal.None? ==> Planned(s, start, ClusterSize(g), content, entry + 28, t)
  {
    t := [];
    if refusal.None? {
      ClusterBounds(g, Cluster(s, g, Target(s, g, name, content).1), |s|);
      t := Replace(s, g, name, content).bytes;
    }
  }

  /** readFATFile after the image is in memory. An entry whose first cluster is below 2 is not refused,
      and its start may lie before the image: slicing there stops the program. */
  datatype Reading = Content(bytes: seq<byte>) | NotAnImage | Missing | Spans | Crashes

  function Read(s: seq<byte>, name: seq<byte>): Reading {
    var g := Open(s);
    if g.None? then NotAnImage
    else
      var found := FindFrom(s, g.value, Fat83(name), 0);
      if found.None? then Missing else ReadEntry(s, g.value, found.value)
  }

  function ReadEntry(s: seq<byte>, g: Geometry, i: nat): Reading
    requires EntryAt(g, i) + 32 <= |s|
  {
    var start, size := ClusterStart(g, Cluster(s, g, i)), Length(s, g, i);
    if size > ClusterSize(g) || start + size > |s| then Spans
    else if start < 0 then Crashes
    else Content(s[start..start + size])
  }

  // ---- What a patch changes ----

  /** The bytes replace may touch: the length field of one entry and one whole cluster. */
  predicate Touched(g: Geometry, i: nat, cluster: nat, k: int) {
    || EntryAt(g, i) + 28 <= k < EntryAt(g, i) + 32
    || ClusterStart(g, cluster) <= k < ClusterStart(g, cluster) + ClusterSize(g)
  }

  /** Same size, and the same bytes everywhere except in those two places. */
  ghost predicate SameOutside(s: seq<byte>, t: seq<byte>, g: Geometry, i: nat, cluster: nat) {
    |t| == |s| && forall k :: 0 <= k < |s| && !Touched(g, i, cluster, k) ==> t[k] == s[k]
  }

  lemma PatchFrame(s: seq<byte>, g: Geometry, name: seq<byte>, content: seq<byte>)
    requires Sound(g, |s|) && Replace(s, g, name, content).Patched?
    ensures var (_, i) := Target(s, g, name, content);
            SameOutside(s, Replace(s, g, name, content).bytes, g, i, Cluster(s, g, i))
  {
    var (_, i) := Target(s, g, name, content);
    ClusterBounds(g, Cluster(s, g, i), |s|);
  }

  /** Both places lie behind the boot sector's parameters, whatever sizes the image declares. */
  lemma PatchKeepsGeometry(s: seq<byte>, t: seq<byte>, g: Geometry, i: nat, cluster: nat)
    requires Open(s) == Some(g) && i < g.rootEntries && cluster >= 2
    requires SameOutside(s, t, g, i, cluster)
    ensures Open(t) == Some(g)
  {
    OpenIsSound(s);
    ClusterBounds(g, cluster, |s|);
    assert g.dataOff >= 33;
    forall k | 0 <= k < 24 ensures t[k] == s[k] {
      assert !Touched(g, i, cluster, k);
    }
    SameParameters(s, t);
  }

  /** The geometry depends on the size and the first 24 bytes only. */
  lemma SameParameters(s: seq<byte>, t: seq<byte>)
    requires |t| == |s| >= 512 && forall k :: 0 <= k < 24 ==> t[k] == s[k]
    ensures Open(t) == Open(s)
  {
    assert U16(t, 11) == U16(s, 11) && U16(t, 14) == U16(s, 14) && U16(t, 17) == U16(s, 17) && U16(t, 22) == U16(s, 22);
  }

  /** No entry's name, attributes or first cluster is among the bytes touched. */
  lemma EntriesKept(s: seq<byte>, t: seq<byte>, g: Geometry, i: nat, cluster: nat, j: nat)
    requires Sound(g, |s|) && i < g.rootEntries && j < g.rootEntries && cluster >= 2
    requires SameOutside(s, t, g, i, cluster)
    ensures EntryAt(g, j) + 32 <= |s|
    ensures forall k :: EntryAt(g, j) <= k < EntryAt(g, j) + 28 ==> t[k] == s[k]
    ensures j != i ==> forall k :: EntryAt(g, j) <= k < EntryAt(g, j) + 32 ==> t[k] == s[k]
  {
    ClusterBounds(g, cluster, |s|);
    forall k | EntryAt(g, j) <= k < EntryAt(g, j) + 32 && (k < EntryAt(g, j) + 28 || j != i) ensures t[k] == s[k] {
      assert !Touched(g, i, cluster, k);
    }
  }

  /** Every name is found where it was found before. */
  lemma {:induction false} FindKept(s: seq<byte>, t: seq<byte>, g: Geometry, i: nat, cluster: nat, want: seq<byte>,
      j: nat)
    requires Sound(g, |s|) && i < g.rootEntries && cluster >= 2
    requires SameOutside(s, t, g, i, cluster)
    ensures FindFrom(t, g, want, j) == FindFrom(s, g, want, j)
    decreases g.rootEntries - j
  {
    if j < g.rootEntries {
      EntriesKept(s, t, g, i, cluster, j);
      FindKept(s, t, g, i, cluster, want, j + 1);
      FindKeptAt(s, t, g, want, j);
    }
  }

  lemma FindKeptAt(s: seq<byte>, t: seq<byte>, g: Geometry, want: seq<byte>, j: nat)
    requires |t| == |s| && EntryAt(g, j) + 32 <= |s|
    requires forall k :: EntryAt(g, j) <= k < EntryAt(g, j) + 28 ==> t[k] == s[k]
    requires FindFrom(t, g, want, j + 1) == FindFrom(s, g, want, j + 1)
    ensures FindFrom(t, g, want, j) == FindFrom(s, g, want, j)
  {
    var off := EntryAt(g, j);
    assert t[off..off + 11] == s[off..off + 11];
  }

  lemma {:induction false} OneMoreStep(c: int, d: int, z: nat)
    requires c < d
    ensures c * z + z <= d * z
    decreases d - c
  {
    if d == c + 1 {
      assert d * z == c * z + z;
    } else {
      OneMoreStep(c, d - 1, z);
      assert d * z == (d - 1) * z + z;
    }
  }

  /** Different clusters do not overlap. */
  lemma ClustersApart(g: Geometry, c: nat, d: nat)
    requires c < d
    ensures ClusterStart(g, c) + ClusterSize(g) <= ClusterStart(g, d)
  {
    OneMoreStep(c - 2, d - 2, ClusterSize(g));
  }

  // ---- The theorems ----

  /** Opening the bytes and replacing the file: what the image becomes, if that succeeds. */
  function PatchFile(s: seq<byte>, name: seq<byte>, content: seq<byte>): Option<seq<byte>> {
    if Open(s).None? then None
    else
      OpenIsSound(s);
      var r := Replace(s, Open(s).value, name, content);
      if r.Patched? then Some(r.bytes) else None
  }

  /** For every string of bytes: a successful replacement keeps the size and the geometry, reads back
      exactly what was written, and changes nothing but the entry's length and its one cluster. */
  lemma PatchedImage(s: seq<byte>, name: seq<byte>, content: seq<byte>)
    ensures var r := PatchFile(s, name, content);
            r.Some? ==>
              && Open(s).Some? && Open(r.value) == Open(s) && Read(r.value, name) == Content(content)
              && var found := FindFrom(s, Open(s).value, Fat83(name), 0);
                 found.Some? &&
                     SameOutside(s, r.value, Open(s).value, found.value, Cluster(s, Open(s).value, found.value))
  {
    if PatchFile(s, name, content).Some? {
      OpenIsSound(s);
      PatchedBytes(s, name, content);
    }
  }

  lemma PatchedBytes(s: seq<byte>, name: seq<byte>, content: seq<byte>)
    requires Open(s).Some?
    requires Sound(Open(s).value, |s|) && Replace(s, Open(s).value, name, content).Patched?
    ensures var g := Open(s).value;
            var t := Replace(s, g, name, content).bytes;
            var (_, i) := Target(s, g, name, content);
            && |t| == |s| && Open(t) == Open(s)
            && Read(t, name) == Content(content)
            && SameOutside(s, t, g, i, Cluster(s, g, i))
  {
    var g := Open(s).value;
    var t := Replace(s, g, name, content).bytes;
    var (_, i) := Target(s, g, name, content);
    var c := Cluster(s, g, i);
    PatchFrame(s, g, name, content);
    PatchKeepsGeometry(s, t, g, i, c);
    FindKept(s, t, g, i, c, Fat83(name), 0);
    WrittenBytes(s, g, name, content);
    EntryReadsWritten(s, t, g, i, c, content);
    ReadThrough(t, g, name, i);
  }

  lemma ReadThrough(t: seq<byte>, g: Geometry, name: seq<byte>, i: nat)
    requires Open(t) == Some(g) && FindFrom(t, g, Fat83(name), 0) == Some(i)
    ensures Read(t, name) == ReadEntry(t, g, i)
  {
  }

  /** The length and the content as they stand after the two writes. */
  lemma WrittenBytes(s: seq<byte>, g: Geometry, name: seq<byte>, content: seq<byte>)
    requires Sound(g, |s|) && Replace(s, g, name, content).Patched?
    ensures var (_, i) := Target(s, g, name, content);
            var t := Replace(s, g, name, content).bytes;
            var start := ClusterStart(g, Cluster(s, g, i));
            && |t| == |s| && 0 <= start && start + |content| <= |s|
            && Length(t, g, i) == |content|
            && t[start..start + |content|] == content
  {
    var (_, i) := Target(s, g, name, content);
    ClusterBounds(g, Cluster(s, g, i), |s|);
    assert EntryAt(g, i) + 32 <= g.dataOff <= ClusterStart(g, Cluster(s, g, i));
  }

  lemma EntryReadsWritten(s: seq<byte>, t: seq<byte>, g: Geometry, i: nat, c: nat, content: seq<byte>)
    requires Sound(g, |s|) && i < g.rootEntries && c >= 2
    requires SameOutside(s, t, g, i, c)
    requires EntryAt(g, i) + 32 <= |s| && Cluster(s, g, i) == c && Length(t, g, i) == |content| <= ClusterSize(g)
    requires 0 <= ClusterStart(g, c) && ClusterStart(g, c) + |content| <= |s|
    requires t[ClusterStart(g, c)..ClusterStart(g, c) + |content|] == content
    ensures ReadEntry(t, g, i) == Content(content)
  {
    EntriesKept(s, t, g, i, c, i);
    assert Cluster(t, g, i) == c;
  }

  /** Both names are in the directory, with different first clusters, the second's being a proper one. */
  predicate ClustersDiffer(s: seq<byte>, g: Geometry, name: seq<byte>, other: seq<byte>) {
    var mine, theirs := FindFrom(s, g, Fat83(name), 0), FindFrom(s, g, Fat83(other), 0);
    mine.Some? && theirs.Some? && Cluster(s, g, theirs.value) >= 2 &&
        Cluster(s, g, theirs.value) != Cluster(s, g, mine.value)
  }

  /** Every other file with a first cluster of its own is found and reads as before, and what was not there
      still is not. */
  lemma OtherFilesUntouched(s: seq<byte>, name: seq<byte>, content: seq<byte>, other: seq<byte>)
    ensures var r := PatchFile(s, name, content);
            r.Some? && (ClustersDiffer(s, Open(s).value, name, other) || Read(s, other) == Missing) ==>
              Read(r.value, other) == Read(s, other)
  {
    var r := PatchFile(s, name, content);
    if r.Some? && (ClustersDiffer(s, Open(s).value, name, other) || Read(s, other) == Missing) {
      OpenIsSound(s);
      OtherReadsAsBefore(s, name, content, other);
    }
  }

  lemma OtherReadsAsBefore(s: seq<byte>, name: seq<byte>, content: seq<byte>, other: seq<byte>)
    requires Open(s).Some?
    requires Sound(Open(s).value, |s|) && Replace(s, Open(s).value, name, content).Patched?
    requires var g := Open(s).value;
             var (_, i) := Target(s, g, name, content);
             var found := FindFrom(s, g, Fat83(other), 0);
             found.Some? ==> Cluster(s, g, found.value) >= 2 && Cluster(s, g, found.value) != Cluster(s, g, i)
    ensures Read(Replace(s, Open(s).value, name, content).bytes, other) == Read(s, other)
  {
    var g := Open(s).value;
    var t := Replace(s, g, name, content).bytes;
    var (_, i) := Target(s, g, name, content);
    var c := Cluster(s, g, i);
    PatchFrame(s, g, name, content);
    PatchKeepsGeometry(s, t, g, i, c);
    FindKept(s, t, g, i, c, Fat83(other), 0);
    var found := FindFrom(s, g, Fat83(other), 0);
    if found.Some? {
      EntryReadsAsBefore(s, t, g, i, c, found.value);
    }
  }

  lemma EntryReadsAsBefore(s: seq<byte>, t: seq<byte>, g: Geometry, i: nat, c: nat, j: nat)
    requires Sound(g, |s|) && i < g.rootEntries && j < g.rootEntries && c >= 2
    requires SameOutside(s, t, g, i, c)
    requires EntryAt(g, i) + 32 <= |s| && EntryAt(g, j) + 32 <= |s|
    requires Cluster(s, g, i) == c && Cluster(s, g, j) >= 2 && Cluster(s, g, j) != c
    ensures ReadEntry(t, g, j) == ReadEntry(s, g, j)
  {
    EntriesKept(s, t, g, i, c, j);
    var d := Cluster(s, g, j);
    assert Cluster(t, g, j) == d && Length(t, g, j) == Length(s, g, j);
    ClusterBounds(g, d, |s|);
    if c < d { ClustersApart(g, c, d); } else { ClustersApart(g, d, c); }
    var start, size := ClusterStart(g, d), Length(s, g, j);
    if size <= ClusterSize(g) && start + size <= |s| {
      forall k | start <= k < start + size ensures t[k] == s[k] {
        assert !Touched(g, i, c, k);
      }
      assert t[start..start + size] == s[start..start + size];
    }
  }

  // ---- Reading an entry without a cluster of its own ----

  /** readFATFile stops the program exactly on an entry that replace would refuse for having no
      cluster, when what it computes as the entry's start lies before the image. */
  lemma ReadCrashesIff(s: seq<byte>, name: seq<byte>)
    ensures Read(s, name) == Crashes <==>
      && Open(s).Some?
      && var g := Open(s).value;
         var found := FindFrom(s, g, Fat83(name), 0);
         && found.Some? && Cluster(s, g, found.value) < 2
         && ClusterStart(g, Cluster(s, g, found.value)) < 0
         && Length(s, g, found.value) <= ClusterSize(g)
         && ClusterStart(g, Cluster(s, g, found.value)) + Length(s, g, found.value) <= |s|
  {
    if Open(s).Some? {
      OpenIsSound(s);
      var g := Open(s).value;
      var found := FindFrom(s, g, Fat83(name), 0);
      if found.Some? && Cluster(s, g, found.value) >= 2 {
        ClusterBounds(g, Cluster(s, g, found.value), |s|);
      }
    }
  }

  /** A 2048-byte image with one empty file, "A", and its first cluster. */
  function TinyByte(perCluster: byte, cluster: byte, k: nat): byte {
    match k
    case 12 => 2      // 512 bytes per sector
    case 13 => perCluster
    case 14 => 1      // 1 reserved sector
    case 16 => 1      // 1 FAT
    case 17 => 16     // 16 root entries
    case 22 => 1      // 1 sector per FAT
    case 1050 => cluster
    case _ => if k == 1024 then 65 else if 1024 < k < 1035 then SPACE else 0
  }

  lemma ShortName(want: seq<byte>)
    requires want == Fat83([65])
    ensures want == [65] + seq(10, _ => SPACE)
  {
    assert UpperAll([65]) == [65] && DotAt([65]) == 1;
  }

  lemma TinyOpens(s: seq<byte>, perCluster: byte, cluster: byte)
    requires |s| == 2048 && perCluster > 0 && forall k :: 0 <= k < 2048 ==> s[k] == TinyByte(perCluster, cluster, k)
    ensures Open(s) == Some(Geometry(512, perCluster, 1024, 16, 1536))
  {
    assert U16(s, 11) == 512 && U16(s, 14) == 1 && U16(s, 17) == 16 && U16(s, 22) == 1;
  }

  lemma TinyHasA(s: seq<byte>, g: Geometry, perCluster: byte, cluster: byte)
    requires |s| == 2048 && perCluster > 0 && forall k :: 0 <= k < 2048 ==> s[k] == TinyByte(perCluster, cluster, k)
    requires g == Geometry(512, perCluster, 1024, 16, 1536)
    ensures FindFrom(s, g, Fat83([65]), 0) == Some(0) && Cluster(s, g, 0) == cluster && Length(s, g, 0) == 0
  {
    var want := Fat83([65]);
    ShortName(want);
    assert s[1024..1035] == want;
  }

  lemma EmptyFileCrashesReading() returns (s: seq<byte>)
    ensures Open(s).Some? && Read(s, [65]) == Crashes
  {
    s := seq(2048, k requires 0 <= k < 2048 => TinyByte(4, 0, k));
    var g := Geometry(512, 4, 1024, 16, 1536);
    TinyOpens(s, 4, 0);
    TinyHasA(s, g, 4, 0);
    assert ClusterStart(g, 0) == 1536 - 2 * 2048;
  }

  /** There is an image to which all this applies. */
  lemma SomeImageIsPatched() returns (s: seq<byte>)
    ensures PatchFile(s, [65], [1, 2, 3]).Some?
  {
    s := seq(2048, k requires 0 <= k < 2048 => TinyByte(1, 2, k));
    var g := Geometry(512, 1, 1024, 16, 1536);
    TinyOpens(s, 1, 2);
    TinyHasA(s, g, 1, 2);
    assert ClusterSize(g) == 512 && ClusterStart(g, 2) == 1536;
    assert Target(s, g, [65], [1, 2, 3]) == (None, 0);
  }

  // ---- In place ----

  const NEWLINE: byte := 10

  /** The line without the newlines at its end. */
  function TrimNewlines(line: seq<byte>): (r: seq<byte>)
    ensures r <= line && (r == [] || r[|r| - 1] != NEWLINE)
    ensures forall i :: |r| <= i < |line| ==> line[i] == NEWLINE
  {
    if line != [] && line[|line| - 1] == NEWLINE then TrimNewlines(line[..|line| - 1]) else line
  }

  class Image {
    const data: array<byte>
    const g: Geometry

    /** What opening the image has established. */
    ghost predicate Valid() {
      Sound(g, data.Length)
    }

    constructor (data: array<byte>, g: Geometry)
      requires Open(data[..]) == Some(g)
      ensures this.data == data && this.g == g && Valid()
    {
      this.data := data;
      this.g := g;
      new;
      OpenIsSound(data[..]);
    }

    /** find: the offset of the entry for a name. */
    method Find(name: seq<byte>, ghost s: seq<byte>) returns (off: Option<nat>)
      requires s == data[..]
      ensures var found := FindFrom(s, g, Fat83(name), 0);
              off == if found.Some? then Some(EntryAt(g, found.value)) else None
    {
      var want := Fat83(name);
      off := Scan(want, s);
    }

    /** The loop over the root directory. */
    method Scan(want: seq<byte>, ghost s: seq<byte>) returns (off: Option<nat>)
      requires s == data[..]
      ensures var found := FindFrom(s, g, want, 0);
              off == if found.Some? then Some(EntryAt(g, found.value)) else None
    {
      var i := 0;
      while i < g.rootEntries
        invariant 0 <= i <= g.rootEntries
        invariant FindFrom(s, g, want, 0) == FindFrom(s, g, want, i)
      {
        var at := EntryAt(g, i);
        if at + 32 > data.Length || data[at] == 0x00 {
          return None;
        }
        assert data[at..at + 11] == s[at..at + 11] && s[at] == data[at] && s[at + 11] == data[at + 11];
        if data[at] != 0xE5 && !NotAFile(data[at + 11]) && data[at..at + 11] == want {
          return Some(at);
        }
        i := i + 1;
      }
      return None;
    }

    /** Clears the cluster, then copies the content over its beginning. */
    method WriteCluster(start: nat, size: nat, content: seq<byte>)
      requires start + size <= data.Length && |content| <= size
      modifies data
      ensures data[..] == Overlay(old(data[..]), start, Cleared(content, size))
    {
      var i := start;
      while i < start + size
        invariant start <= i <= start + size
        invariant forall k :: 0 <= k < data.Length ==> data[k] == if start <= k < i then 0 else old(data[k])
      {
        data[i] := 0;
        i := i + 1;
      }
      i := 0;
      while i < |content|
        invariant 0 <= i <= |content|
        invariant forall k :: 0 <= k < data.Length ==>
                    data[k] == if start <= k < start + i then content[k - start]
                               else if start <= k < start + size then 0 else old(data[k])
      {
        data[start + i] := content[i];
        i := i + 1;
      }
    }

    /** PutUint32 into the length field of an entry. */
    method WriteLength(at: nat, n: nat)
      requires at + 4 <= data.Length && n < 0x1_0000_0000
      modifies data
      ensures data[..] == Overlay(old(data[..]), at, PutU32(n))
    {
      var b := PutU32(n);
      data[at], data[at + 1], data[at + 2], data[at + 3] := b[0], b[1], b[2], b[3];
    }

    method WriteBoth(start: nat, size: nat, content: seq<byte>, at: nat, ghost t: seq<byte>)
      requires Planned(data[..], start, size, content, at, t)
      modifies data
      ensures data[..] == t
    {
      WriteCluster(start, size, content);
      WriteLength(at, |content|);
    }

    /** The first half of replace: where to write, or why not. */
    method Locate(name: seq<byte>, content: seq<byte>, ghost s: seq<byte>)
      returns (refusal: Option<Error>, entry: nat, start: nat)
      requires Valid() && s == data[..]
      ensures Located(s, g, name, content, refusal, entry, start)
    {
      entry, start := 0, 0;
      var off := Find(name, s);
      if off.None? {
        return Some(NotInImage), entry, start;
      }
      ghost var found := FindFrom(s, g, Fat83(name), 0).value;
      entry := off.value;
      var cluster := U16([data[entry + 26], data[entry + 27]], 0);
      assert cluster == Cluster(s, g, found);
      if cluster < 2 {
        return Some(NoCluster), entry, start;
      }
      if |content| > ClusterSize(g) {
        return Some(TooLong), entry, start;
      }
      ClusterBounds(g, cluster, data.Length);
      start := ClusterStart(g, cluster);
      if start + ClusterSize(g) > data.Length {
        return Some(PastTheEnd), entry, start;
      }
      return None, entry, start;
    }

    /** The same, with the bytes that are to come. */
    method Plan(name: seq<byte>, content: seq<byte>, ghost s: seq<byte>)
      returns (refusal: Option<Error>, entry: nat, start: nat, ghost t: seq<byte>)
      requires Valid() && s == data[..]
      ensures data[..] == s
      ensures refusal.Some? ==> Replace(s, g, name, content) == Refused(refusal.value)
      ensures refusal.None? ==> Replace(s, g, name, content) == Patched(t)
      ensures refusal.None? ==> Planned(s, start, ClusterSize(g), content, entry + 28, t)
    {
      refusal, entry, start := Locate(name, content, s);
      t := ReplaceFollows(s, g, name, content, refusal, entry, start);
      assert data[..] == s;
    }

    method ReplaceFile(name: seq<byte>, content: seq<byte>) returns (refusal: Option<Error>)
      requires Valid()
      modifies data
      ensures refusal.Some? ==>
              Replace(old(data[..]), g, name, content) == Refused(refusal.value) && data[..] == old(data[..])
      ensures refusal.None? ==> Replace(old(data[..]), g, name, content) == Patched(data[..])
    {
      var entry, start;
      ghost var t;
      refusal, entry, start, t := Plan(name, content, data[..]);
      if refusal.None? {
        WriteBoth(start, ClusterSize(g), content, entry + 28, t);
      }
    }
  }

  /** patchCmdline on the bytes of a payload: the line, with one newline, as cmdline.txt. */
  method PatchCmdline(payload: array<byte>, name: seq<byte>, line: seq<byte>) returns (ok: bool)
    modifies payload
    ensures !ok ==> payload[..] == old(payload[..])
    ensures ok ==> Read(payload[..], name) == Content(TrimNewlines(line) + [NEWLINE])
    ensures ok ==> Open(payload[..]) == old(Open(payload[..]))
  {
    ghost var s := payload[..];
    var g := Open(payload[..]);
    if g.None? {
      return false;
    }
    var image := new Image(payload, g.value);
    var content := TrimNewlines(line) + [NEWLINE];
    var refusal := image.ReplaceFile(name, content);
    if refusal.Some? {
      return false;
    }
    PatchedImage(s, name, content);
    return true;
  }
}
