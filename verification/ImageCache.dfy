/** The images a site holds: the file, the partial download beside it and the stamp that says it was checked
    (site/images.go). Files are strings of bytes; the checksum is a parameter. */
module ImageCache {
  import opened Wrappers
  import opened Text

  type Dir = map<string, string>

  type Checksum = string -> string

  const VERIFIED := ".verified"
  const PART := ".part"

  function TrimSuffix(s: string, suffix: string): string {
    if EndsWith(s, suffix) then s[..|s| - |suffix|] else s
  }

  function StampName(name: string): string {
    name + VERIFIED
  }

  function PartName(name: string): string {
    name + PART
  }

  /** A name that is neither that of a stamp nor that of a partial file. */
  predicate Plain(name: string) {
    !EndsWith(name, VERIFIED) && !EndsWith(name, PART)
  }

  lemma NamesApart(a: string, b: string)
    ensures EndsWith(StampName(a), VERIFIED) && EndsWith(PartName(a), PART)
    ensures StampName(a) != PartName(b)
    ensures (StampName(a) == StampName(b) <==> a == b) && (PartName(a) == PartName(b) <==> a == b)
  {
    var s, p := StampName(a), PartName(b);
    assert s[|s| - 9..] == VERIFIED && PartName(a)[|a|..] == PART;
    assert s[|s| - 1] == 'd' && p[|p| - 1] == 't';
    if StampName(a) == StampName(b) { assert a == StampName(a)[..|a|] == StampName(b)[..|b|] == b; }
    if PartName(a) == PartName(b) { assert a == PartName(a)[..|a|] == PartName(b)[..|b|] == b; }
  }

  // ---- Checksums ----

  function Lower(c: char): char {
    if 'A' <= c <= 'Z' then (c as int + 32) as char else c
  }

  /** strings.EqualFold on hexadecimal checksums. */
  predicate EqualFold(a: string, b: string) {
    |a| == |b| && forall i :: 0 <= i < |a| ==> Lower(a[i]) == Lower(b[i])
  }

  /** A checksum is written without blanks around it, as hexadecimal is. */
  ghost predicate Tidy(hash: Checksum) {
    forall x :: Trim(hash(x)) == hash(x)
  }

  // ---- One image ----

  /** haveImage: whether the file is the wanted one, and the directory afterwards. */
  function Have(hash: Checksum, d: Dir, name: string, sum: string, size: nat): (bool, Dir) {
    if name !in d || (size > 0 && |d[name]| != size) then (false, d)
    else if StampName(name) in d && Trim(d[StampName(name)]) == sum then (true, d)
    else if sum != "" && !EqualFold(hash(d[name]), sum) then (false, d)
    else (true, d[StampName(name) := hash(d[name])])
  }

  /** What comes back to a request: the bytes of a whole file or of a range, as far as they arrived. */
  datatype Reply = NoReply | Whole(bytes: string, broken: bool) | Rest(bytes: string, broken: bool) | OtherStatus

  function Held(d: Dir, name: string): string {
    if PartName(name) in d then d[PartName(name)] else ""
  }

  /** A server that follows section 14 of RFC 9110 over this source: it answers a range with what is left only while
      something is left, and a transfer that is not broken is complete. */
  predicate Possible(d: Dir, name: string, src: string, reply: Reply) {
    match reply
    case Whole(bytes, broken) => bytes <= src && (!broken ==> bytes == src)
    case Rest(bytes, broken) =>
      var from := |Held(d, name)|;
      0 < from < |src| && bytes <= src[from..] && (!broken ==> bytes == src[from..])
    case _ => true
  }

  /** The partial file once the copy has ended, and whether it ended well. */
  function Copied(d: Dir, name: string, reply: Reply): (Option<string>, bool) {
    match reply
    case Whole(bytes, broken) => (Some(bytes), !broken)
    case Rest(bytes, broken) => (Some(Held(d, name) + bytes), !broken)
    case _ => (None, false)
  }

  /** fetchImage, uninterrupted. */
  function Fetch(hash: Checksum, d: Dir, name: string, sum: string, reply: Reply): (bool, Dir) {
    var (part, complete) := Copied(d, name, reply);
    if part.None? then (false, d)
    else if !complete then (false, d[PartName(name) := part.value])
    else if sum != "" && !EqualFold(hash(part.value), sum) then (false, d - {PartName(name)})
    else
      var stamped := if sum != "" then d[StampName(name) := hash(part.value)] else d;
      (true, (stamped - {PartName(name)})[name := part.value])
  }

  // ---- The invariant ----

  /** A stamp beside an image names that image's checksum. */
  ghost predicate StampsTrue(hash: Checksum, d: Dir) {
    forall n :: Plain(n) && n in d && StampName(n) in d ==> Trim(d[StampName(n)]) == hash(d[n])
  }

  ghost predicate PartIsPrefix(d: Dir, name: string, src: string) {
    PartName(name) in d ==> d[PartName(name)] <= src
  }

  /** Nothing changed but the three files of this name. */
  ghost predicate OnlyTouches(d: Dir, e: Dir, name: string) {
    forall n :: n != name && n != StampName(name) && n != PartName(name) ==>
        (n in e <==> n in d) && (n in d ==> e[n] == d[n])
  }

  /** "ready" from a look at the disk means the catalogue's checksum. */
  lemma HaveIsSound(hash: Checksum, d: Dir, name: string, sum: string, size: nat)
    requires Tidy(hash) && StampsTrue(hash, d) && Plain(name) && sum != ""
    ensures var (ok, e) := Have(hash, d, name, sum, size);
            && StampsTrue(hash, e) && OnlyTouches(d, e, name)
            && (ok ==> name in e && EqualFold(hash(e[name]), sum))
            && (forall n, src :: PartIsPrefix(d, n, src) ==> PartIsPrefix(e, n, src))
  {
    var (ok, e) := Have(hash, d, name, sum, size);
    forall n ensures StampName(n) != PartName(name) && (StampName(n) == StampName(name) <==> n == name) {
      NamesApart(n, name);
    }
    forall n ensures PartName(n) != StampName(name) {
      NamesApart(name, n);
    }
  }

  /** The image that is wanted is not fetched again: the size declared, if one is, and the checksum. And nothing of
      another size, or with another checksum and no stamp that names the wanted one, passes. */
  lemma WantedIsKeptIff(hash: Checksum, d: Dir, name: string, sum: string, size: nat)
    requires Tidy(hash) && StampsTrue(hash, d) && Plain(name) && sum != ""
    ensures Have(hash, d, name, sum, size).0 <==>
            name in d && (size == 0 || |d[name]| == size) && EqualFold(hash(d[name]), sum)
  {
    FoldsToItself(sum);
    NamesApart(name, name);
  }

  /** Upper and lower case letters are the same in a checksum, and nothing else is. */
  lemma FoldsCaseOnly(a: char, b: char)
    requires a <= 'z' && b <= 'z'
    ensures EqualFold([a], [b]) <==>
            a == b || ('A' <= a <= 'Z' && b as int == a as int + 32) || ('A' <= b <= 'Z' && a as int == b as int + 32)
  {
    assert [a][0] == a && [b][0] == b;
  }

  /** So does "ready" after a fetch, whatever lay in the partial file and whatever the server sent. */
  lemma FetchIsSound(hash: Checksum, d: Dir, name: string, sum: string, reply: Reply)
    requires Tidy(hash) && StampsTrue(hash, d) && Plain(name) && sum != ""
    ensures var (ok, e) := Fetch(hash, d, name, sum, reply);
            && StampsTrue(hash, e) && OnlyTouches(d, e, name)
            && (ok ==> name in e && EqualFold(hash(e[name]), sum))
  {
    forall n ensures StampName(n) != PartName(name) && StampName(n) != name &&
        (StampName(n) == StampName(name) <==> n == name) {
      NamesApart(n, name);
    }
  }

  /** Where the source is the one the partial file came from and the server is honest, the partial file stays the
      beginning of it, and a fetch that succeeds brings the source. */
  lemma FetchKeepsPrefix(hash: Checksum, d: Dir, name: string, sum: string, src: string, reply: Reply)
    requires Plain(name) && PartIsPrefix(d, name, src) && Possible(d, name, src, reply)
    ensures var (ok, e) := Fetch(hash, d, name, sum, reply);
            && OnlyTouches(d, e, name) && PartIsPrefix(e, name, src) && (ok ==> e[name] == src)
  {
    NamesApart(name, name);
    if reply.Rest? {
      var from := |Held(d, name)|;
      assert src == src[..from] + src[from..];
      assert Held(d, name) == src[..from];
    }
  }

  /** A download that came to its end and does not add up fails and leaves nothing to resume: the directory is the old
      one without the partial file, the image that was there before included. */
  lemma CorruptPartStartsOver(hash: Checksum, d: Dir, name: string, sum: string, reply: Reply)
    requires sum != "" && Copied(d, name, reply).0.Some? && Copied(d, name, reply).1
    requires !EqualFold(hash(Copied(d, name, reply).0.value), sum)
    ensures var (ok, e) := Fetch(hash, d, name, sum, reply);
            && !ok && PartName(name) !in e && Held(e, name) == ""
            && (forall n :: n != PartName(name) ==> (n in e <==> n in d) && (n in d ==> e[n] == d[n]))
  {
  }

  /** So two fetches are enough, whatever lay in the partial file: if the bytes held and the rest the server sends are
      not the image, the next fetch asks for all of it, and with an honest answer the image is there. */
  lemma SecondFetchHeals(hash: Checksum, d: Dir, name: string, src: string, rest: string)
    requires Plain(name) && hash(src) != "" && !EqualFold(hash(Held(d, name) + rest), hash(src))
    ensures var e := Fetch(hash, d, name, hash(src), Rest(rest, false)).1;
            var (ok, f) := Fetch(hash, e, name, hash(src), Whole(src, false));
            ok && name in f && f[name] == src && Held(e, name) == ""
  {
    CorruptPartStartsOver(hash, d, name, hash(src), Rest(rest, false));
    NamesApart(name, name);
    FoldsToItself(hash(src));
  }

  /** Without a checksum in the catalogue a fetch writes no stamp: the stamps stay true exactly if there was none beside
      the file, or one that names the bytes copied. */
  lemma UnsummedFetchStampsIff(hash: Checksum, d: Dir, name: string, reply: Reply)
    requires StampsTrue(hash, d) && Plain(name) && Copied(d, name, reply).0.Some? && Copied(d, name, reply).1
    ensures Fetch(hash, d, name, "", reply).0
    ensures StampsTrue(hash, Fetch(hash, d, name, "", reply).1) <==>
            (StampName(name) in d ==> Trim(d[StampName(name)]) == hash(Copied(d, name, reply).0.value))
  {
    var e := Fetch(hash, d, name, "", reply).1;
    forall n
      ensures StampName(n) != PartName(name) && StampName(n) != name
      ensures StampName(n) == StampName(name) <==> n == name
    {
      NamesApart(n, name);
    }
    assert name in e && (StampName(name) in e <==> StampName(name) in d);
  }

  /** An image fetched with its checksum, republished, and fetched again when the catalogue names none. */
  lemma StaleStampLeftBehind(hash: Checksum, was: string, bytes: string) returns (d: Dir, reply: Reply)
    requires Tidy(hash) && hash(was) != hash(bytes)
    ensures StampsTrue(hash, d)
    ensures Fetch(hash, d, "a.img", "", reply).0 && !StampsTrue(hash, Fetch(hash, d, "a.img", "", reply).1)
  {
    var name := "a.img";
    d, reply := map[name := was, StampName(name) := hash(was)], Whole(bytes, false);
    assert Plain(name) by {
      OtherEnding(name, VERIFIED);
      OtherEnding(name, PART);
    }
    forall n ensures StampName(n) == StampName(name) <==> n == name { NamesApart(n, name); }
    forall n | Plain(n) && n in d && StampName(n) in d ensures Trim(d[StampName(n)]) == hash(d[n]) {
      NamesApart(name, n);
      assert n == name;
    }
    assert StampName(name) != name by { NamesApart(name, name); }
    UnsummedFetchStampsIff(hash, d, name, reply);
  }

  // ---- Power lost in the middle ----

  /** The directory right after the stamp is written and before the file is renamed into place. */
  function AfterStamp(hash: Checksum, d: Dir, name: string, part: string): Dir {
    d[PartName(name) := part][StampName(name) := hash(part)]
  }

  /** The stamp comes before the rename: losing power between the two leaves a true stamp exactly when there was no
      older file, or one with the same checksum. */
  lemma StampBeforeRenameIsSafeIff(hash: Checksum, d: Dir, name: string, part: string)
    requires Tidy(hash) && StampsTrue(hash, d) && Plain(name)
    ensures StampsTrue(hash, AfterStamp(hash, d, name, part)) <==> (name in d ==> hash(d[name]) == hash(part))
  {
    var e := AfterStamp(hash, d, name, part);
    forall n ensures StampName(n) != PartName(name) && StampName(n) != name &&
        (StampName(n) == StampName(name) <==> n == name) {
      NamesApart(n, name);
    }
    assert Trim(hash(part)) == hash(part);
    if name in d {
      assert name in e && e[name] == d[name];
      assert StampName(name) in e && e[StampName(name)] == hash(part);
    }
  }

  /** Otherwise the next look at the disk calls the old bytes ready under the new checksum. */
  lemma OldBytesPassForNew(hash: Checksum, d: Dir, name: string, was: string, part: string)
    requires Tidy(hash) && Plain(name) && name in d && d[name] == was && |was| == |part|
    ensures Have(hash, AfterStamp(hash, d, name, part), name, hash(part), |part|).0
    ensures AfterStamp(hash, d, name, part)[name] == was
  {
    NamesApart(name, name);
    assert Trim(hash(part)) == hash(part);
  }

  lemma {:induction false} FoldsToItself(a: string)
    ensures EqualFold(a, a)
  {
  }

  /** A range answer of an honest server can finish a partial file exactly while some of the source is there and some
      of it is missing. */
  lemma RangeFinishesIff(hash: Checksum, d: Dir, name: string, src: string)
    requires Plain(name) && PartIsPrefix(d, name, src)
    ensures (exists bytes, broken :: Finishes(hash, d, name, src, Rest(bytes, broken))) <==> 0 < |Held(d, name)| < |src|
  {
    var held := Held(d, name);
    if 0 < |held| < |src| {
      assert held == src[..|held|] && src == src[..|held|] + src[|held|..];
      FoldsToItself(hash(src));
      assert Finishes(hash, d, name, src, Rest(src[|held|..], false));
    }
  }

  /** The answer is honest and the fetch succeeds with the source's checksum. */
  predicate Finishes(hash: Checksum, d: Dir, name: string, src: string, reply: Reply) {
    Possible(d, name, src, reply) && Fetch(hash, d, name, hash(src), reply).0
  }

  /** A transfer of the whole file that breaks after its last byte leaves a complete partial file, from any directory;
      and then every answer but the whole file again fails and changes nothing. */
  lemma CompletePartIsStuck(hash: Checksum, d: Dir, name: string, sum: string, src: string, reply: Reply)
    ensures Possible(d, name, src, Whole(src, true))
    ensures var e := Fetch(hash, d, name, sum, Whole(src, true)).1;
            && Held(e, name) == src && PartName(name) in e
            && (Possible(e, name, src, reply) && !reply.Whole? ==> Fetch(hash, e, name, sum, reply) == (false, e))
  {
  }

  // ---- Pruning ----

  const IMAGE_SUFFIXES := [".img.xz", ".img.gz", ".img.zst", ".img", ".raw", ".raw.xz", ".tar.xz"]

  predicate LooksLikeImage(name: string) {
    exists k :: 0 <= k < |IMAGE_SUFFIXES| && EndsWith(name, IMAGE_SUFFIXES[k])
  }

  /** The image a file belongs to. */
  function Base(n: string): string {
    TrimSuffix(TrimSuffix(n, VERIFIED), PART)
  }

  predicate Leftover(n: string, keep: set<string>) {
    keep != {} && Base(n) !in keep && LooksLikeImage(Base(n))
  }

  function Pruned(d: Dir, keep: set<string>): Dir {
    map n | n in d && !Leftover(n, keep) :: d[n]
  }

  lemma OtherEnding(s: string, suffix: string)
    requires |s| > 0 && |suffix| > 0 && s[|s| - 1] != suffix[|suffix| - 1]
    ensures !EndsWith(s, suffix)
  {
  }

  lemma BaseOf(w: string)
    requires Plain(w)
    ensures Base(w) == w && Base(StampName(w)) == w && Base(PartName(w)) == w
  {
    NamesApart(w, w);
    assert StampName(w)[..|w|] == w && PartName(w)[..|w|] == w;
    OtherEnding(PartName(w), VERIFIED);
  }

  lemma BaseOfFiles(w: string)
    ensures Base(StampName(w)) == TrimSuffix(w, PART) && Base(PartName(w)) == w
  {
    NamesApart(w, w);
    assert StampName(w)[..|w|] == w && PartName(w)[..|w|] == w;
    OtherEnding(PartName(w), VERIFIED);
  }

  /** The file goes where another image's name is taken for its own. */
  predicate Mistaken(own: string, taken: string, keep: set<string>) {
    taken != own && taken !in keep && LooksLikeImage(taken)
  }

  /** What pruning does to the files of a wanted image: the partial file always stays; the stamp goes exactly if the
      name ends like a partial file's and the rest of it is an unwanted image's; the image itself goes exactly if its
      name ends like a stamp's or a partial file's and the rest of it is an unwanted image's. What stays is
      unchanged. */
  lemma WantedSurvivesIff(d: Dir, keep: set<string>, w: string)
    requires w in keep
    ensures var p := Pruned(d, keep);
            && (PartName(w) in d ==> PartName(w) in p)
            && (StampName(w) in d ==> (StampName(w) in p <==> !Mistaken(w, TrimSuffix(w, PART), keep)))
            && (w in d ==> (w in p <==> !Mistaken(w, Base(w), keep)))
            && forall n :: n in p ==> n in d && p[n] == d[n]
  {
    BaseOfFiles(w);
  }

  /** So a wanted image with a plain name keeps its file, its stamp and its partial download. */
  lemma PruningSparesWanted(d: Dir, keep: set<string>, w: string)
    requires w in keep && Plain(w)
    ensures forall n | n in {w, StampName(w), PartName(w)} :: n in d <==> n in Pruned(d, keep)
    ensures forall n | n in {w, StampName(w), PartName(w)} && n in d :: Pruned(d, keep)[n] == d[n]
  {
    WantedSurvivesIff(d, keep, w);
    BaseOf(w);
  }

  lemma PruningKeepsInvariant(hash: Checksum, d: Dir, keep: set<string>)
    requires StampsTrue(hash, d)
    ensures StampsTrue(hash, Pruned(d, keep))
    ensures forall n, src :: PartIsPrefix(d, n, src) ==> PartIsPrefix(Pruned(d, keep), n, src)
  {
  }

  /** The name need not be Plain for the centre to accept it: one that ends like a partial file is pruned though
      it is wanted. */
  lemma WantedButPruned()
    ensures var keep := {"a.img.part"}; "a.img.part" !in Pruned(map["a.img.part" := "x"], keep)
  {
    var n := "a.img.part";
    assert n[|n| - 5..] == PART && n[..5] == "a.img";
    OtherEnding(n, VERIFIED);
    assert Base(n) == "a.img";
    assert "a.img"[1..] == IMAGE_SUFFIXES[3] && EndsWith("a.img", IMAGE_SUFFIXES[3]);
  }

  // ---- One pass over the catalogue ----

  /** An image of the catalogue, and what its source answers if it is asked in this pass. */
  datatype Wanted = Wanted(name: string, sum: string, size: nat, reply: Reply)

  datatype Stock = Ready(bytes: nat) | Failed | Absent

  function SizeOf(d: Dir, name: string): nat {
    if name in d then |d[name]| else 0
  }

  /** One image: look, else fetch. */
  function EnsureOne(hash: Checksum, dry: bool, d: Dir, w: Wanted): (Stock, Dir) {
    var (have, e) := Have(hash, d, w.name, w.sum, w.size);
    if have then (Ready(SizeOf(e, w.name)), e)
    else if dry then (Absent, e)
    else
      var (got, f) := Fetch(hash, e, w.name, w.sum, w.reply);
      (if got then Ready(SizeOf(f, w.name)) else Failed, f)
  }

  function EnsureAll(hash: Checksum, dry: bool, d: Dir, ws: seq<Wanted>): (seq<Stock>, Dir) {
    if ws == [] then ([], d)
    else
      var last := |ws| - 1;
      var (stock, e) := EnsureAll(hash, dry, d, ws[..last]);
      var (s, f) := EnsureOne(hash, dry, e, ws[last]);
      (stock + [s], f)
  }

  function NamesOf(ws: seq<Wanted>): set<string> {
    set k | 0 <= k < |ws| :: ws[k].name
  }

  /** Every image has a checksum, and one name has one checksum. */
  ghost predicate Catalogue(ws: seq<Wanted>) {
    && (forall k :: 0 <= k < |ws| ==> Plain(ws[k].name) && ws[k].sum != "")
    && (forall j, k :: 0 <= j < |ws| && 0 <= k < |ws| && ws[j].name == ws[k].name ==> ws[j].sum == ws[k].sum)
  }

  ghost predicate Sound(hash: Checksum, d: Dir, name: string, sum: string) {
    name in d && EqualFold(hash(d[name]), sum)
  }

  lemma OthersKept(d: Dir, e: Dir, name: string, other: string, src: string)
    requires OnlyTouches(d, e, name) && Plain(name) && Plain(other) && name != other
    ensures (other in d <==> other in e) && (other in d ==> e[other] == d[other])
    ensures PartIsPrefix(d, other, src) ==> PartIsPrefix(e, other, src)
  {
    NamesApart(name, other);
    NamesApart(other, name);
  }

  /** What one image's turn keeps. */
  lemma EnsureOneIsSound(hash: Checksum, dry: bool, d: Dir, w: Wanted)
    requires Tidy(hash) && StampsTrue(hash, d) && Plain(w.name) && w.sum != ""
    ensures var (s, e) := EnsureOne(hash, dry, d, w);
            && StampsTrue(hash, e) && OnlyTouches(d, e, w.name)
            && (s.Ready? || Sound(hash, d, w.name, w.sum) ==> Sound(hash, e, w.name, w.sum))
            && (s.Ready? ==> s.bytes == |e[w.name]|)
  {
    HaveIsSound(hash, d, w.name, w.sum, w.size);
    var (have, e) := Have(hash, d, w.name, w.sum, w.size);
    NamesApart(w.name, w.name);
    if !have && !dry {
      FetchIsSound(hash, e, w.name, w.sum, w.reply);
    }
  }

  lemma NextIsSound(hash: Checksum, dry: bool, e: Dir, ws: seq<Wanted>, stock: seq<Stock>)
    requires Tidy(hash) && StampsTrue(hash, e) && Catalogue(ws) && |ws| == |stock| + 1
    requires forall k :: 0 <= k < |stock| && stock[k].Ready? ==>
             Sound(hash, e, ws[..|stock|][k].name, ws[..|stock|][k].sum)
    ensures var (s, f) := EnsureOne(hash, dry, e, ws[|stock|]);
            && StampsTrue(hash, f)
            && (forall k :: 0 <= k < |ws| && (stock + [s])[k].Ready? ==> Sound(hash, f, ws[k].name, ws[k].sum))
  {
    var w := ws[|stock|];
    EnsureOneIsSound(hash, dry, e, w);
    var f := EnsureOne(hash, dry, e, w).1;
    forall k | 0 <= k < |stock| && stock[k].Ready? ensures Sound(hash, f, ws[k].name, ws[k].sum) {
      assert Sound(hash, e, ws[..|stock|][k].name, ws[..|stock|][k].sum);
      if ws[k].name != w.name { OthersKept(e, f, w.name, ws[k].name, ""); }
    }
  }

  /** A whole pass, before pruning, whatever partial files it finds and whatever the servers answer: stamps stay true
      and every image reported ready has the catalogue's checksum at the end, whatever was fetched after it. */
  lemma {:induction false} PassIsSound(hash: Checksum, dry: bool, d: Dir, ws: seq<Wanted>)
    requires Tidy(hash) && StampsTrue(hash, d) && Catalogue(ws)
    ensures var (stock, e) := EnsureAll(hash, dry, d, ws);
            && |stock| == |ws| && StampsTrue(hash, e)
            && (forall k :: 0 <= k < |ws| && stock[k].Ready? ==> Sound(hash, e, ws[k].name, ws[k].sum))
  {
    if ws != [] {
      var last := |ws| - 1;
      PassIsSound(hash, dry, d, ws[..last]);
      var (stock, e) := EnsureAll(hash, dry, d, ws[..last]);
      NextIsSound(hash, dry, e, ws, stock);
    }
  }

  /** One pass of ensureImages, pruning included: what is reported and what is on disk. */
  function AfterPass(hash: Checksum, dry: bool, d: Dir, ws: seq<Wanted>): (seq<Stock>, Dir) {
    var (stock, e) := EnsureAll(hash, dry, d, ws);
    (stock, if dry then e else Pruned(e, NamesOf(ws)))
  }

  /** The same after pruning. */
  lemma ReadyMeansChecksum(hash: Checksum, dry: bool, d: Dir, ws: seq<Wanted>)
    requires Tidy(hash) && StampsTrue(hash, d) && Catalogue(ws)
    ensures var (stock, f) := AfterPass(hash, dry, d, ws);
            && |stock| == |ws| && StampsTrue(hash, f)
            && (forall k :: 0 <= k < |ws| && stock[k].Ready? ==> Sound(hash, f, ws[k].name, ws[k].sum))
  {
    PassIsSound(hash, dry, d, ws);
    var (stock, e) := EnsureAll(hash, dry, d, ws);
    PruningKeepsInvariant(hash, e, NamesOf(ws));
    forall k | 0 <= k < |ws| && stock[k].Ready? ensures Sound(hash, Pruned(e, NamesOf(ws)), ws[k].name, ws[k].sum) {
      PruningSparesWanted(e, NamesOf(ws), ws[k].name);
    }
  }

  // ---- Pass after pass ----

  /** The directory after these passes. Catalogues, sources and servers may change from one to the next. */
  function AfterPasses(hash: Checksum, dry: bool, d: Dir, passes: seq<seq<Wanted>>): Dir {
    if passes == [] then d
    else
      var last := |passes| - 1;
      AfterPass(hash, dry, AfterPasses(hash, dry, d, passes[..last]), passes[last]).1
  }

  ghost predicate Catalogues(passes: seq<seq<Wanted>>) {
    forall k :: 0 <= k < |passes| ==> Catalogue(passes[k])
  }

  /** Through every run of passes without a crash, from any directory whose stamps are true, stamps are true: whatever
      was republished, whatever broke, whatever a server answered. */
  lemma {:induction false} StampsAlwaysTrue(hash: Checksum, dry: bool, d: Dir, passes: seq<seq<Wanted>>)
    requires Tidy(hash) && StampsTrue(hash, d) && Catalogues(passes)
    ensures StampsTrue(hash, AfterPasses(hash, dry, d, passes))
  {
    if passes != [] {
      var last := |passes| - 1;
      StampsAlwaysTrue(hash, dry, d, passes[..last]);
      ReadyMeansChecksum(hash, dry, AfterPasses(hash, dry, d, passes[..last]), passes[last]);
    }
  }

  /** So what any pass of any such run reports ready has the checksum of the catalogue of that pass. */
  lemma ReadyInEveryRun(hash: Checksum, dry: bool, d: Dir, passes: seq<seq<Wanted>>, ws: seq<Wanted>, k: nat)
    requires Tidy(hash) && StampsTrue(hash, d) && Catalogues(passes) && Catalogue(ws) && k < |ws|
    ensures var (stock, e) := AfterPass(hash, dry, AfterPasses(hash, dry, d, passes), ws);
            |stock| == |ws| && (stock[k].Ready? ==> Sound(hash, e, ws[k].name, ws[k].sum))
  {
    StampsAlwaysTrue(hash, dry, d, passes);
    ReadyMeansChecksum(hash, dry, AfterPasses(hash, dry, d, passes), ws);
  }

  // ---- Partial files, where the sources do not change ----

  ghost predicate PartsBegin(d: Dir, source: string -> string) {
    forall n :: Plain(n) ==> PartIsPrefix(d, n, source(n))
  }

  /** The answer is one an honest server gives over this source. */
  predicate HonestTo(hash: Checksum, d: Dir, w: Wanted, source: string -> string) {
    Plain(w.name) && Possible(Have(hash, d, w.name, w.sum, w.size).1, w.name, source(w.name), w.reply)
  }

  ghost predicate HonestPass(hash: Checksum, dry: bool, d: Dir, ws: seq<Wanted>, source: string -> string) {
    ws == [] ||
    var last := |ws| - 1;
    && HonestPass(hash, dry, d, ws[..last], source)
    && HonestTo(hash, EnsureAll(hash, dry, d, ws[..last]).1, ws[last], source)
  }

  ghost predicate HonestPasses(hash: Checksum, dry: bool, d: Dir, passes: seq<seq<Wanted>>, source: string -> string) {
    passes == [] ||
    var last := |passes| - 1;
    && HonestPasses(hash, dry, d, passes[..last], source)
    && HonestPass(hash, dry, AfterPasses(hash, dry, d, passes[..last]), passes[last], source)
  }

  lemma LookKeepsParts(hash: Checksum, d: Dir, w: Wanted, source: string -> string)
    requires PartsBegin(d, source) && Plain(w.name)
    ensures PartsBegin(Have(hash, d, w.name, w.sum, w.size).1, source)
  {
    forall n ensures PartName(n) != StampName(w.name) {
      NamesApart(w.name, n);
    }
  }

  lemma OneKeepsParts(hash: Checksum, dry: bool, d: Dir, w: Wanted, source: string -> string)
    requires PartsBegin(d, source) && HonestTo(hash, d, w, source)
    ensures PartsBegin(EnsureOne(hash, dry, d, w).1, source)
  {
    LookKeepsParts(hash, d, w, source);
    var (have, e) := Have(hash, d, w.name, w.sum, w.size);
    if !have && !dry {
      FetchKeepsPrefix(hash, e, w.name, w.sum, source(w.name), w.reply);
      var f := Fetch(hash, e, w.name, w.sum, w.reply).1;
      forall n | Plain(n) ensures PartIsPrefix(f, n, source(n)) {
        if n != w.name { OthersKept(e, f, w.name, n, source(n)); }
      }
    }
  }

  lemma {:induction false} PassKeepsParts(hash: Checksum, dry: bool, d: Dir, ws: seq<Wanted>, source: string -> string)
    requires PartsBegin(d, source) && HonestPass(hash, dry, d, ws, source)
    ensures PartsBegin(EnsureAll(hash, dry, d, ws).1, source)
  {
    if ws != [] {
      var last := |ws| - 1;
      PassKeepsParts(hash, dry, d, ws[..last], source);
      OneKeepsParts(hash, dry, EnsureAll(hash, dry, d, ws[..last]).1, ws[last], source);
    }
  }

  /** While the sources stay what they are and are served honestly, checksum or not, every partial file is at all times
      the beginning of its source. */
  lemma {:induction false} PartsAlwaysBegin(hash: Checksum, dry: bool, d: Dir, passes: seq<seq<Wanted>>,
      source: string -> string)
    requires PartsBegin(d, source) && HonestPasses(hash, dry, d, passes, source)
    ensures PartsBegin(AfterPasses(hash, dry, d, passes), source)
  {
    if passes != [] {
      var last := |passes| - 1;
      PartsAlwaysBegin(hash, dry, d, passes[..last], source);
      PassKeepsParts(hash, dry, AfterPasses(hash, dry, d, passes[..last]), passes[last], source);
    }
  }

  /** The images directory of a site, with what was last reported of it. */
  class Store {
    var files: Dir
    var stock: seq<Stock>

    constructor (found: Dir)
      ensures files == found && stock == []
    {
      files := found;
      stock := [];
    }

    method HaveImage(hash: Checksum, name: string, sum: string, size: nat) returns (ok: bool)
      modifies this`files
      ensures (ok, files) == Have(hash, old(files), name, sum, size)
    {
      if name !in files || (size > 0 && |files[name]| != size) { return false; }
      if StampName(name) in files && Trim(files[StampName(name)]) == sum { return true; }
      var got := hash(files[name]);
      if sum != "" && !EqualFold(got, sum) { return false; }
      files := files[StampName(name) := got];
      return true;
    }

    method FetchImage(hash: Checksum, name: string, sum: string, reply: Reply) returns (ok: bool)
      modifies this`files
      ensures (ok, files) == Fetch(hash, old(files), name, sum, reply)
    {
      var (part, complete) := Copied(files, name, reply);
      if part.None? { return false; }
      var tmp := PartName(name);
      files := files[tmp := part.value];
      if !complete { return false; }
      if sum != "" {
        var got := hash(files[tmp]);
        if !EqualFold(got, sum) {
          files := files - {tmp};
          assert files == old(files) - {tmp};
          return false;
        }
        files := files[StampName(name) := got];
      }
      NamesApart(name, name);
      assert files - {tmp} ==
             (if sum != "" then old(files)[StampName(name) := hash(part.value)] else old(files)) - {tmp};
      files := (files - {tmp})[name := part.value];
      return true;
    }

    method PruneImages(keep: set<string>)
      modifies this`files
      ensures files == Pruned(old(files), keep)
    {
      if keep == {} { return; }
      var entries := files.Keys;
      while entries != {}
        invariant entries <= old(files).Keys && entries <= files.Keys <= old(files).Keys
        invariant forall n :: n in files ==> files[n] == old(files)[n]
        invariant forall n :: n in old(files) && n !in entries ==> (n in files <==> !Leftover(n, keep))
      {
        var n :| n in entries;
        if Base(n) !in keep && LooksLikeImage(Base(n)) {
          files := files - {n};
        }
        entries := entries - {n};
      }
    }

    method EnsureImages(hash: Checksum, dry: bool, ws: seq<Wanted>)
      modifies this
      ensures (stock, files) == AfterPass(hash, dry, old(files), ws)
    {
      var keep := NamesOf(ws);
      stock := [];
      var k := 0;
      while k < |ws|
        invariant k <= |ws|
        invariant (stock, files) == EnsureAll(hash, dry, old(files), ws[..k])
      {
        var w := ws[k];
        assert ws[..k + 1][..k] == ws[..k];
        var have := HaveImage(hash, w.name, w.sum, w.size);
        if have {
          stock := stock + [Ready(SizeOf(files, w.name))];
        } else if dry {
          stock := stock + [Absent];
        } else {
          var got := FetchImage(hash, w.name, w.sum, w.reply);
          stock := stock + [if got then Ready(SizeOf(files, w.name)) else Failed];
        }
        k := k + 1;
      }
      assert ws[..k] == ws;
      if !dry { PruneImages(keep); }
    }
  }
}
