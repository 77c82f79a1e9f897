/** The merge as it runs: nested maps are objects, the destination is changed in place, and nested maps are copied
    rather than shared (server/api.go mergeInto). */
module ConfigTree {
  import opened ConfigMerge

  datatype Value = Text(v: string) | Sub(node: Node)

  /** A map of the program. `tree` is the configuration it holds, `repr` the maps it is made of. */
  class Node {
    var kids: map<string, Value>
    ghost var tree: Config
    ghost var repr: set<Node>

    constructor ()
      ensures kids == map[] && tree == map[] && repr == {this}
    {
      kids, tree, repr := map[], map[], {this};
    }
  }

  /** A value inside a map, with the part of the configuration it stands for. */
  ghost predicate Holds(n: Node, v: Value, j: Json)
    reads n, n.repr
    decreases n.repr, 0
  {
    match v
    case Text(t) => j == Leaf(t)
    case Sub(m) => n in n.repr && m in n.repr && m.repr <= n.repr - {n} && Valid(m) && j == Obj(m.tree)
  }

  /** The maps form a tree: none is reached twice. */
  ghost predicate Valid(n: Node)
    reads n, n.repr
    decreases n.repr, 1
  {
    && n in n.repr && n.tree.Keys == n.kids.Keys
    && (forall k :: k in n.kids ==> Holds(n, n.kids[k], n.tree[k]))
    && (forall j, k :: j in n.kids && k in n.kids && j != k && n.kids[j].Sub? && n.kids[k].Sub? ==>
          n.kids[j].node.repr !! n.kids[k].node.repr)
  }

  /** One key of the loop. */
  method MergeKey(dst: Node, src: Node, k: string)
    requires Valid(dst) && Valid(src) && dst.repr !! src.repr && k in src.kids
    modifies dst.repr
    ensures Valid(dst) && fresh(dst.repr - old(dst.repr))
    ensures k in dst.kids && dst.tree == old(dst.tree)[k := Merge(old(dst.tree), src.tree)[k]]
    decreases src.repr, 1
  {
    var v := src.kids[k];
    assert Holds(src, v, src.tree[k]);
    if v.Sub? {
      if k in dst.kids && dst.kids[k].Sub? {
        MergeBelow(dst, src, k);
      } else {
        var copy := new Node();
        MergeInto(copy, v.node);
        PutNew(dst, k, Sub(copy), Obj(copy.tree));
      }
    } else {
      PutNew(dst, k, v, Leaf(v.v));
    }
  }

  /** Setting a key to a text, or to a map nothing else holds. */
  method PutNew(dst: Node, k: string, v: Value, ghost j: Json)
    requires Valid(dst)
    requires match v case Text(t) => j == Leaf(t) case Sub(m) => Valid(m) && m.repr !! dst.repr && j == Obj(m.tree)
    modifies dst
    ensures Valid(dst) && dst.repr == old(dst.repr) + (if v.Sub? then v.node.repr else {})
    ensures k in dst.kids && dst.tree == old(dst.tree)[k := j]
  {
    ghost var was := dst.kids;
    dst.kids := dst.kids[k := v];
    dst.tree := dst.tree[k := j];
    if v.Sub? { dst.repr := dst.repr + v.node.repr; }
    forall i | i in dst.kids ensures Holds(dst, dst.kids[i], dst.tree[i]) {
      if i != k { assert old(Holds(dst, dst.kids[i], dst.tree[i])); }
    }
  }

  /** The tree is in order but for what the node knows of the map under k. */
  ghost predicate ValidBut(n: Node, k: string)
    reads n, n.repr
  {
    && n in n.repr && n.tree.Keys == n.kids.Keys && k in n.kids && n.kids[k].Sub?
    && (forall i :: i in n.kids && i != k ==> Holds(n, n.kids[i], n.tree[i]))
    && (forall i, j :: i in n.kids && j in n.kids && i != j && i != k && j != k && n.kids[i].Sub? && n.kids[j].Sub? ==>
          n.kids[i].node.repr !! n.kids[j].node.repr)
  }

  /** What the map under k has become is taken over. */
  method Adopt(dst: Node, k: string, inner: Node)
    requires ValidBut(dst, k) && dst.kids[k] == Sub(inner) && Valid(inner) && dst !in inner.repr
    requires forall i :: i in dst.kids && i != k && dst.kids[i].Sub? ==> dst.kids[i].node.repr !! inner.repr
    modifies dst
    ensures Valid(dst) && dst.kids == old(dst.kids)
    ensures dst.repr == old(dst.repr) + inner.repr && dst.tree == old(dst.tree)[k := Obj(inner.tree)]
  {
    dst.repr := dst.repr + inner.repr;
    dst.tree := dst.tree[k := Obj(inner.tree)];
    forall i | i in dst.kids ensures Holds(dst, dst.kids[i], dst.tree[i]) {
      if i != k { assert old(Holds(dst, dst.kids[i], dst.tree[i])); }
    }
  }

  /** Each map below stands by itself. */
  lemma Below(n: Node, i: string)
    requires Valid(n) && i in n.kids && n.kids[i].Sub?
    ensures var m := n.kids[i].node;
            && m in m.repr && m.repr <= n.repr - {n} && m in n.repr
            && Valid(m) && n.tree[i] == Obj(m.tree)
  {
    assert Holds(n, n.kids[i], n.tree[i]);
    assert Valid(n.kids[i].node);
  }

  /** Merging into a map the destination already holds. */
  method MergeBelow(dst: Node, src: Node, k: string)
    requires Valid(dst) && Valid(src) && dst.repr !! src.repr && k in src.kids && k in dst.kids
    requires src.kids[k].Sub? && dst.kids[k].Sub?
    modifies dst.repr
    ensures Valid(dst) && fresh(dst.repr - old(dst.repr)) && dst.kids == old(dst.kids)
    ensures dst.tree == old(dst.tree)[k := Merge(old(dst.tree), src.tree)[k]]
    decreases src.repr, 0
  {
    var inner, from := dst.kids[k].node, src.kids[k].node;
    Below(src, k);
    forall i | i in dst.kids && dst.kids[i].Sub?
      ensures var m := dst.kids[i].node;
              && m in m.repr && m.repr <= dst.repr - {dst} && m in dst.repr
              && Valid(m) && dst.tree[i] == Obj(m.tree)
    {
      Below(dst, i);
    }
    MergeInto(inner, from);
    forall i | i in dst.kids && i != k ensures Holds(dst, dst.kids[i], dst.tree[i]) {
      assert old(Holds(dst, dst.kids[i], dst.tree[i]));
    }
    Adopt(dst, k, inner);
  }

  /** The destination once all keys but these are merged. */
  ghost predicate Partly(was: Config, src: Config, todo: set<string>, cur: Config) {
    && todo <= src.Keys
    && cur.Keys == was.Keys + (src.Keys - todo)
    && (forall k :: k in cur && (k !in src || k in todo) ==> cur[k] == was[k])
    && (forall k :: k in src && k !in todo ==> cur[k] == Merge(was, src)[k])
  }

  lemma PartlyNext(was: Config, src: Config, todo: set<string>, cur: Config, k: string)
    requires Partly(was, src, todo, cur) && k in todo
    ensures Partly(was, src, todo - {k}, cur[k := Merge(cur, src)[k]])
  {
    assert k in cur <==> k in was;
    assert Merge(cur, src)[k] == Merge(was, src)[k];
  }

  lemma PartlyDone(was: Config, src: Config, cur: Config)
    requires Partly(was, src, {}, cur)
    ensures cur == Merge(was, src)
  {
  }

  /** One turn of the loop. */
  method MergeOne(dst: Node, src: Node, k: string, ghost was: Config, ghost todo: set<string>)
    requires Valid(dst) && Valid(src) && dst.repr !! src.repr && Partly(was, src.tree, todo, dst.tree) && k in todo
    modifies dst.repr
    ensures Valid(dst) && fresh(dst.repr - old(dst.repr)) && Partly(was, src.tree, todo - {k}, dst.tree)
    decreases src.repr, 2
  {
    PartlyNext(was, src.tree, todo, dst.tree, k);
    assert k in src.kids;
    MergeKey(dst, src, k);
  }

  /** mergeInto: the keys come in any order; the source is left alone, and the result shares nothing with it. */
  method MergeInto(dst: Node, src: Node)
    requires Valid(dst) && Valid(src) && dst.repr !! src.repr
    modifies dst.repr
    ensures Valid(dst) && fresh(dst.repr - old(dst.repr))
    ensures dst.tree == Merge(old(dst.tree), src.tree)
    ensures dst.repr !! src.repr && unchanged(src.repr)
    decreases src.repr, 3
  {
    ghost var was := dst.tree;
    var todo := src.kids.Keys;
    while todo != {}
      invariant Valid(dst) && fresh(dst.repr - old(dst.repr))
      invariant Partly(was, src.tree, todo, dst.tree)
      decreases |todo|
    {
      var k :| k in todo;
      MergeOne(dst, src, k, was, todo);
      todo := todo - {k};
    }
    PartlyDone(was, src.tree, dst.tree);
  }

  // ---- A blade's configuration ----

  /** A stored layer, read afresh: maps of its own. */
  method ReadLayer(c: Config) returns (n: Node)
    ensures Valid(n) && fresh(n.repr) && n.tree == c
    decreases Obj(c), 1
  {
    n := new Node();
    var todo := c.Keys;
    while todo != {}
      invariant todo <= c.Keys && Valid(n) && fresh(n.repr)
      invariant n.tree.Keys == c.Keys - todo && forall k :: k in n.tree ==> n.tree[k] == c[k]
      decreases |todo|
    {
      var k :| k in todo;
      ReadKey(c, n, k);
      todo := todo - {k};
    }
  }

  method ReadKey(c: Config, n: Node, k: string)
    requires Valid(n) && k in c
    modifies n
    ensures Valid(n) && fresh(n.repr - old(n.repr)) && n.tree == old(n.tree)[k := c[k]]
    decreases Obj(c), 0
  {
    match c[k] {
      case Leaf(v) => PutNew(n, k, Text(v), Leaf(v));
      case Obj(m) =>
        var inner := ReadLayer(m);
        PutNew(n, k, Sub(inner), Obj(m));
    }
  }

  /** Merging one stored layer over the result so far. */
  method MergeLayer(out: Node, layer: Config)
    requires Valid(out)
    modifies out.repr
    ensures Valid(out) && fresh(out.repr - old(out.repr)) && out.tree == Merge(old(out.tree), layer)
  {
    var n := ReadLayer(layer);
    MergeInto(out, n);
  }

  /** The loop over the groups. */
  method MergeGroups(out: Node, stored: string -> Config, groups: seq<string>, ghost layers: seq<Config>)
    requires Valid(out) && |layers| > |groups| && out.tree == Stacked(layers[..1])
    requires forall k :: 0 <= k < |groups| ==> layers[k + 1] == stored("group:" + groups[k])
    modifies out.repr
    ensures Valid(out) && fresh(out.repr - old(out.repr)) && out.tree == Stacked(layers[..|groups| + 1])
  {
    var k := 0;
    while k < |groups|
      invariant k <= |groups| && Valid(out) && fresh(out.repr - old(out.repr))
      invariant out.tree == Stacked(layers[..k + 1])
    {
      StackedNext(layers, k + 1);
      MergeLayer(out, stored("group:" + groups[k]));
      k := k + 1;
    }
  }

  /** mergedConfig: the layers in order, and what follows from the position on top. */
  method MergedConfig(stored: string -> Config, b: Place) returns (out: Node)
    ensures Valid(out) && fresh(out.repr)
    ensures out.tree == WithPosition(Stacked(Layers(stored, b)), b)
  {
    LayersAt(stored, b);
    var groups := SortStrings(b.groups);
    out := MergeLayers(stored, groups, b.serial, Layers(stored, b));
    SetPosition(out, b);
  }

  /** The layers of mergedConfig, lowest first. */
  method MergeLayers(stored: string -> Config, groups: seq<string>, serial: string, ghost layers: seq<Config>)
    returns (out: Node)
    requires |layers| == |groups| + 2 && layers[0] == stored("global") &&
             layers[|groups| + 1] == stored("blade:" + serial)
    requires forall k :: 0 <= k < |groups| ==> layers[k + 1] == stored("group:" + groups[k])
    ensures Valid(out) && fresh(out.repr) && out.tree == Stacked(layers)
  {
    out := new Node();
    StackedNext(layers, 0);
    MergeLayer(out, stored("global"));
    MergeGroups(out, stored, groups, layers);
    StackedNext(layers, |groups| + 1);
    MergeLayer(out, stored("blade:" + serial));
  }

  method SetPosition(out: Node, b: Place)
    requires Valid(out)
    modifies out
    ensures Valid(out) && out.repr == old(out.repr) && out.tree == WithPosition(old(out.tree), b)
  {
    if b.relay != "" { PutNew(out, "server_url", Text(b.relay), Leaf(b.relay)); }
    if b.hostname != "" { PutNew(out, "hostname", Text(b.hostname), Leaf(b.hostname)); }
    if b.ip != "" { PutNew(out, "expected_ip", Text(b.ip), Leaf(b.ip)); }
  }
}
