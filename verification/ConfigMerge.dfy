/** The layered configuration of a blade: global, then its groups in order of name, then its own (server/api.go). */
module ConfigMerge {
  import opened Wrappers

  datatype Json = Leaf(v: string) | Obj(m: Config)

  type Config = map<string, Json>

  // ---- The reference: a right-biased deep merge ----

  function Inner(a: Config, k: string): Config {
    if k in a && a[k].Obj? then a[k].m else map[]
  }

  function Merge(a: Config, b: Config): Config
    decreases Obj(b)
  {
    map k | k in a.Keys + b.Keys ::
      if k !in b then a[k] else if b[k].Obj? then Obj(Merge(Inner(a, k), b[k].m)) else b[k]
  }

  /** Merging into nothing copies. */
  lemma {:induction false} MergeIntoEmpty(b: Config)
    ensures Merge(map[], b) == b
    decreases Obj(b)
  {
    forall k | k in b ensures Merge(map[], b)[k] == b[k] {
      if b[k].Obj? { MergeIntoEmpty(b[k].m); }
    }
  }

  /** Merging a layer a second time changes nothing. */
  lemma {:induction false} MergeIsIdempotent(a: Config, b: Config)
    ensures Merge(Merge(a, b), b) == Merge(a, b)
    decreases Obj(b)
  {
    var c := Merge(a, b);
    forall k | k in c.Keys + b.Keys ensures Merge(c, b)[k] == c[k] {
      if k in b && b[k].Obj? { MergeIsIdempotent(Inner(a, k), b[k].m); }
    }
  }

  // ---- What is found at a path ----

  function At(c: Config, path: seq<string>): Option<Json>
    decreases |path|
  {
    if path == [] then Some(Obj(c))
    else if path[0] !in c then None
    else match c[path[0]]
      case Obj(m) => At(m, path[1..])
      case Leaf(v) => if |path| == 1 then Some(Leaf(v)) else None
  }

  predicate HasLeaf(c: Config, path: seq<string>, v: string) {
    At(c, path) == Some(Leaf(v))
  }

  /** The layer says something at the path, or cuts it short with a value above it. */
  predicate Overrides(b: Config, path: seq<string>) {
    At(b, path).Some? || exists n :: 0 < n < |path| && At(b, path[..n]).Some? && At(b, path[..n]).value.Leaf?
  }

  lemma AtOne(c: Config, path: seq<string>)
    requires |path| == 1
    ensures At(c, path) == if path[0] in c then Some(c[path[0]]) else None
  {
    assert path[1..] == [];
  }

  lemma OverridesBelow(b: Config, path: seq<string>)
    requires |path| > 1 && path[0] in b
    ensures b[path[0]].Leaf? ==> Overrides(b, path)
    ensures b[path[0]].Obj? ==> (Overrides(b, path) <==> Overrides(b[path[0]].m, path[1..]))
  {
    var rest := path[1..];
    assert path[..1] == [path[0]];
    if b[path[0]].Leaf? {
      assert At(b, path[..1]) == Some(b[path[0]]);
    } else {
      var m := b[path[0]].m;
      forall n | 0 < n < |rest| ensures At(b, path[..n + 1]) == At(m, rest[..n]) {
        assert path[..n + 1][1..] == rest[..n];
      }
      if n :| 0 < n < |path| && At(b, path[..n]).Some? && At(b, path[..n]).value.Leaf? {
        assert path[..1][1..] == [];
        assert At(b, path[..1]) == Some(Obj(m));
        assert path[..(n - 1) + 1] == path[..n];
        assert At(m, rest[..n - 1]) == At(b, path[..n]);
      }
    }
  }

  /** The values of a merge are exactly those of the later layer, and those of the earlier one at the paths the later
      layer neither sets nor shadows. */
  lemma {:induction false} LeavesOfMerge(a: Config, b: Config, path: seq<string>, v: string)
    requires path != []
    ensures HasLeaf(Merge(a, b), path, v) <==> HasLeaf(b, path, v) || (HasLeaf(a, path, v) && !Overrides(b, path))
    decreases |path|
  {
    var k := path[0];
    if k !in b {
      assert !At(b, path).Some?;
      forall n | 0 < n < |path| ensures At(b, path[..n]) == None {}
    } else if |path| == 1 {
      AtOne(a, path);
      AtOne(b, path);
      AtOne(Merge(a, b), path);
    } else {
      OverridesBelow(b, path);
      if b[k].Obj? {
        LeavesOfMerge(Inner(a, k), b[k].m, path[1..], v);
        assert HasLeaf(a, path, v) <==> HasLeaf(Inner(a, k), path[1..], v);
      }
    }
  }

  /** What a path is overridden by in a merge: by the later layer, and by neither layer only if by none of them. */
  lemma {:induction false} OverridesOfMerge(b: Config, c: Config, path: seq<string>)
    requires path != []
    ensures Overrides(c, path) ==> Overrides(Merge(b, c), path)
    ensures Overrides(Merge(b, c), path) ==> Overrides(b, path) || Overrides(c, path)
    decreases |path|
  {
    var k := path[0];
    var bc := Merge(b, c);
    if |path| == 1 {
      AtOne(b, path);
      AtOne(c, path);
      AtOne(bc, path);
    } else {
      if k in b { OverridesBelow(b, path); } else { NothingBelow(b, path); }
      if k in c { OverridesBelow(c, path); } else { NothingBelow(c, path); }
      if k in bc { OverridesBelow(bc, path); } else { NothingBelow(bc, path); }
      if k in c && c[k].Obj? {
        OverridesOfMerge(Inner(b, k), c[k].m, path[1..]);
        if !(k in b && b[k].Obj?) { NothingInEmpty(path[1..]); }
      }
    }
  }

  lemma NothingBelow(c: Config, path: seq<string>)
    requires path != [] && path[0] !in c
    ensures !Overrides(c, path)
  {
    forall n | 0 < n < |path| ensures At(c, path[..n]) == None {}
  }

  lemma NothingInEmpty(path: seq<string>)
    requires path != []
    ensures !Overrides(map[], path)
  {
    NothingBelow(map[], path);
  }

  /** Exactly where the grouping of three layers matters: at a value of the lowest that the middle one overrides and the
      upper two, merged, do not. */
  lemma GroupingMattersIff(a: Config, b: Config, c: Config, path: seq<string>, v: string)
    requires path != []
    ensures (HasLeaf(Merge(Merge(a, b), c), path, v) <==> HasLeaf(Merge(a, Merge(b, c)), path, v)) <==>
            !(HasLeaf(a, path, v) && Overrides(b, path) && !Overrides(Merge(b, c), path))
  {
    LeavesOfMerge(Merge(a, b), c, path, v);
    LeavesOfMerge(a, b, path, v);
    LeavesOfMerge(b, c, path, v);
    LeavesOfMerge(a, Merge(b, c), path, v);
    OverridesOfMerge(b, c, path);
  }

  /** The order of layers matters, and so does the grouping: a value in between erases what lies under it. */
  lemma MergeIsNotAssociative()
    ensures var a := map["x" := Obj(map["y" := Leaf("1")])];
            var b := map["x" := Leaf("0")];
            var c := map["x" := Obj(map["z" := Leaf("2")])];
            Merge(Merge(a, b), c) != Merge(a, Merge(b, c))
  {
    var a := map["x" := Obj(map["y" := Leaf("1")])];
    var b := map["x" := Leaf("0")];
    var c := map["x" := Obj(map["z" := Leaf("2")])];
    var path := ["x", "y"];
    assert path[1..] == ["y"];
    assert HasLeaf(a, path, "1");
    LeavesOfMerge(Merge(a, b), c, path, "1");
    LeavesOfMerge(a, b, path, "1");
    LeavesOfMerge(b, c, path, "1");
    LeavesOfMerge(a, Merge(b, c), path, "1");
  }

  // ---- Order of the groups ----

  /** The order of sort.Strings. */
  predicate AtMost(a: string, b: string) {
    a == "" || (b != "" && (a[0] < b[0] || (a[0] == b[0] && AtMost(a[1..], b[1..]))))
  }

  lemma {:induction false} AtMostIsTotal(a: string, b: string)
    ensures AtMost(a, b) || AtMost(b, a)
    ensures AtMost(a, b) && AtMost(b, a) ==> a == b
  {
    if a != "" && b != "" {
      AtMostIsTotal(a[1..], b[1..]);
      assert a == [a[0]] + a[1..] && b == [b[0]] + b[1..];
    }
  }

  lemma {:induction false} AtMostIsTransitive(a: string, b: string, c: string)
    requires AtMost(a, b) && AtMost(b, c)
    ensures AtMost(a, c)
  {
    if a != "" && a[0] == b[0] == c[0] { AtMostIsTransitive(a[1..], b[1..], c[1..]); }
  }

  /** A string comes before another exactly if it is a beginning of it, or has the smaller character where they first
      differ. */
  lemma {:induction false} AtMostIff(a: string, b: string)
    ensures AtMost(a, b) <==> a <= b || exists n: nat :: FirstDiffers(a, b, n)
  {
    if a != "" && b != "" && a[0] == b[0] {
      AtMostIff(a[1..], b[1..]);
      assert a <= b <==> a[1..] <= b[1..];
      if n: nat :| FirstDiffers(a[1..], b[1..], n) { assert FirstDiffers(a, b, n + 1); }
      if n: nat :| FirstDiffers(a, b, n) {
        assert n > 0;
        assert FirstDiffers(a[1..], b[1..], n - 1);
      }
    } else if a != "" && b != "" && a[0] < b[0] {
      assert FirstDiffers(a, b, 0);
    }
  }

  predicate FirstDiffers(a: string, b: string, n: nat) {
    n < |a| && n < |b| && a[..n] == b[..n] && a[n] < b[n]
  }

  ghost predicate Ordered(s: seq<string>) {
    forall i, j :: 0 <= i <= j < |s| ==> AtMost(s[i], s[j])
  }

  function Insert(x: string, s: seq<string>): seq<string> {
    if s == [] then [x] else if AtMost(x, s[0]) then [x] + s else [s[0]] + Insert(x, s[1..])
  }

  function SortStrings(s: seq<string>): seq<string> {
    if s == [] then [] else Insert(s[0], SortStrings(s[1..]))
  }

  lemma {:induction false} InsertKeepsOrder(x: string, s: seq<string>)
    requires Ordered(s)
    ensures multiset(Insert(x, s)) == multiset{x} + multiset(s) && Ordered(Insert(x, s))
  {
    AtMostIsTotal(x, x);
    if s != [] {
      assert s == [s[0]] + s[1..];
      if AtMost(x, s[0]) {
        LowestFirst(x, s);
      } else {
        AtMostIsTotal(x, s[0]);
        InsertKeepsOrder(x, s[1..]);
        LeastOfInserted(s[0], x, s[1..], Insert(x, s[1..]));
      }
    }
  }

  lemma {:induction false} SortedArrangement(s: seq<string>)
    ensures multiset(SortStrings(s)) == multiset(s) && Ordered(SortStrings(s))
  {
    if s != [] {
      assert s == [s[0]] + s[1..];
      SortedArrangement(s[1..]);
      InsertKeepsOrder(s[0], SortStrings(s[1..]));
    }
  }

  lemma LowestFirst(x: string, s: seq<string>)
    requires Ordered(s) && s != [] && AtMost(x, s[0])
    ensures Ordered([x] + s)
  {
    AtMostIsTotal(x, x);
    forall j | 0 <= j < |s| ensures AtMost(x, s[j]) {
      AtMostIsTransitive(x, s[0], s[j]);
    }
  }

  lemma LeastOfInserted(least: string, x: string, s: seq<string>, r: seq<string>)
    requires AtMost(least, x) && (forall k :: 0 <= k < |s| ==> AtMost(least, s[k]))
    requires multiset(r) == multiset{x} + multiset(s) && Ordered(r)
    ensures Ordered([least] + r)
  {
    AtMostIsTotal(least, least);
    forall j | 0 <= j < |r| ensures AtMost(least, r[j]) {
      assert r[j] in multiset(r);
      assert r[j] == x || r[j] in s;
    }
  }

  lemma LeastIsLow(s: seq<string>, t: seq<string>)
    requires Ordered(s) && multiset(s) == multiset(t) && s != [] && t != []
    ensures AtMost(s[0], t[0])
  {
    assert t[0] in multiset(s);
  }

  lemma TailArrangement(s: seq<string>)
    requires Ordered(s) && s != []
    ensures Ordered(s[1..]) && multiset(s[1..]) == multiset(s) - multiset{s[0]} && s == [s[0]] + s[1..]
  {
    assert s == [s[0]] + s[1..];
  }

  /** A list has one ordered arrangement. */
  lemma {:induction false} OrderedArrangementIsUnique(s: seq<string>, t: seq<string>)
    requires Ordered(s) && Ordered(t) && multiset(s) == multiset(t)
    ensures s == t
  {
    if s == [] {
      assert |t| == |multiset(t)| == 0;
    } else {
      assert |t| == |multiset(t)| == |multiset(s)| == |s|;
      LeastIsLow(s, t);
      LeastIsLow(t, s);
      AtMostIsTotal(s[0], t[0]);
      TailArrangement(s);
      TailArrangement(t);
      OrderedArrangementIsUnique(s[1..], t[1..]);
    }
  }

  // ---- A blade's configuration ----

  datatype Place = Place(serial: string, groups: seq<string>, hostname: string, ip: string, relay: string)

  /** The layers, lowest first. */
  function Layers(stored: string -> Config, b: Place): seq<Config> {
    var groups := SortStrings(b.groups);
    [stored("global")] + seq(|groups|, k requires 0 <= k < |groups| => stored("group:" + groups[k])) +
        [stored("blade:" + b.serial)]
  }

  function Stacked(layers: seq<Config>): Config {
    if layers == [] then map[] else Merge(Stacked(layers[..|layers| - 1]), layers[|layers| - 1])
  }

  function WithPosition(c: Config, b: Place): Config {
    var c := if b.relay != "" then c["server_url" := Leaf(b.relay)] else c;
    var c := if b.hostname != "" then c["hostname" := Leaf(b.hostname)] else c;
    if b.ip != "" then c["expected_ip" := Leaf(b.ip)] else c
  }

  /** What follows from the position wins over every layer, key by key, and touches no other key. */
  lemma PositionWins(c: Config, b: Place, k: string)
    ensures var r := WithPosition(c, b);
            && (k == "server_url" && b.relay != "" ==> k in r && r[k] == Leaf(b.relay))
            && (k == "hostname" && b.hostname != "" ==> k in r && r[k] == Leaf(b.hostname))
            && (k == "expected_ip" && b.ip != "" ==> k in r && r[k] == Leaf(b.ip))
            && (!(k == "server_url" && b.relay != "") && !(k == "hostname" && b.hostname != "")
                && !(k == "expected_ip" && b.ip != "") ==>
                  (k in r <==> k in c) && (k in c ==> r[k] == c[k]))
  {
    var x, y, z := "server_url", "hostname", "expected_ip";
    assert |x| == 10 && |y| == 8 && |z| == 11;
  }

  lemma StackedNext(layers: seq<Config>, k: nat)
    requires k < |layers|
    ensures Stacked(layers[..k + 1]) == Merge(Stacked(layers[..k]), layers[k])
    ensures k == 0 ==> Stacked(layers[..k]) == map[]
    ensures k + 1 == |layers| ==> layers[..k + 1] == layers
  {
    assert layers[..k + 1][..k] == layers[..k];
  }

  lemma LayersAt(stored: string -> Config, b: Place)
    ensures var groups, layers := SortStrings(b.groups), Layers(stored, b);
            && |layers| == |groups| + 2 && layers[0] == stored("global") &&
                layers[|groups| + 1] == stored("blade:" + b.serial)
            && forall k :: 0 <= k < |groups| ==> layers[k + 1] == stored("group:" + groups[k])
  {
  }

  /** The result does not depend on the order in which the blade's groups are listed. */
  lemma GroupOrderIsIrrelevant(stored: string -> Config, b: Place, groups: seq<string>)
    requires multiset(groups) == multiset(b.groups)
    ensures Layers(stored, b.(groups := groups)) == Layers(stored, b)
  {
    SortedArrangement(groups);
    SortedArrangement(b.groups);
    OrderedArrangementIsUnique(SortStrings(groups), SortStrings(b.groups));
  }

  /** A value is in effect exactly when some layer sets it and no later layer sets or shadows its path. */
  lemma {:induction false} EffectiveValue(layers: seq<Config>, path: seq<string>, v: string)
    requires path != []
    ensures HasLeaf(Stacked(layers), path, v) <==> exists k :: SetLast(layers, k, path, v)
  {
    if layers != [] {
      var n := |layers| - 1;
      var under := layers[..n];
      EffectiveValue(under, path, v);
      LeavesOfMerge(Stacked(under), layers[n], path, v);
      if HasLeaf(layers[n], path, v) { assert SetLast(layers, n, path, v); }
      if k: nat :| SetLast(under, k, path, v) && !Overrides(layers[n], path) { assert SetLast(layers, k, path, v); }
      if k: nat :| SetLast(layers, k, path, v) && k < n { assert SetLast(under, k, path, v); }
    }
  }

  ghost predicate SetLast(layers: seq<Config>, k: nat, path: seq<string>, v: string) {
    k < |layers| && HasLeaf(layers[k], path, v) && forall j :: k < j < |layers| ==> !Overrides(layers[j], path)
  }
}
