/** The merge as it runs: on linked nodes, in place. */
module YamlInPlace {
  import opened Sequences
  import opened Wrappers
  import opened Texts
  import opened YamlTree
  import opened YamlGraph
  import opened YamlShapes
  import P = YamlPrune
  import M = YamlMerge

  // ---------------------------------------------------------------- writing one node

  method Relabel(n: YamlNode, kind: Kind, tag: string, value: string, ghost d: Shape) returns (ghost r: Shape)
    requires Holds(d) && Distinct(d) && d.node == n
    modifies n
    ensures r == d.(kind := kind, tag := tag, value := value) && Holds(r) && Distinct(r)
  {
    n.kind, n.tag, n.value := kind, tag, value;
    r := d.(kind := kind, tag := tag, value := value);
  }

  method Refill(n: YamlNode, content: seq<YamlNode?>, ghost d: Shape, ghost c: seq<Shape>) returns (ghost r: Shape)
    requires Labelled(d) && d.node == n && AllHold(c) && AllDistinct(c) && PointTo(content, c) && n !in AllNodes(c)
    modifies n`content
    ensures r == d.(content := c) && Holds(r) && Distinct(r)
  {
    n.content := content;
    r := d.(content := c);
  }

  // ---------------------------------------------------------------- copying

  lemma {:induction false} OneMore(c: seq<Shape>, x: Shape)
    requires AllHold(c) && AllDistinct(c) && Holds(x) && Distinct(x) && AllNodes(c) !! Nodes(x)
    ensures AllHold(c + [x]) && AllDistinct(c + [x]) && AllNodes(c + [x]) == AllNodes(c) + Nodes(x)
  {
    HoldBoth(c, [x]);
    DistinctBoth(c, [x]);
    DistinctOne(x);
    NodesOfBoth(c, [x]);
    NodesOfOne(x);
  }

  lemma {:induction false} ChildOf(s: Shape, i: nat)
    requires i < |s.content|
    ensures Nodes(s.content[i]) <= Nodes(s)
    ensures Distinct(s) ==> Distinct(s.content[i])
  {
    assert Nodes(s.content[i]) <= AllNodes(s.content);
    if Distinct(s) {
      assert AllDistinct(s.content);
    }
  }

  lemma {:induction false} ChildHolds(s: Shape, i: nat)
    requires Holds(s) && i < |s.content|
    ensures Holds(s.content[i]) && s.node.content[i] == s.content[i].node
  {
  }

  /** Copies `c` of the content of `s` up to the i-th child, with `nodes` at their tops. */
  ghost predicate CopiedUpTo(known: set<YamlNode>, s: Shape, i: nat, nodes: seq<YamlNode?>, c: seq<Shape>)
    reads AllNodes(c)
  {
    i <= |s.content| && AllHold(c) && AllDistinct(c) && PointTo(nodes, c)
    && ViewAll(known, c) == ViewAll(known, s.content)[..i]
  }

  lemma {:induction false} OneMoreCopied(known: set<YamlNode>, s: Shape, i: nat, nodes: seq<YamlNode?>,
                                         c: seq<Shape>, copy: Shape)
    requires i < |s.content| && CopiedUpTo(known, s, i, nodes, c)
    requires Holds(copy) && Distinct(copy) && AllNodes(c) !! Nodes(copy)
    requires View(known, copy) == View(known, s.content[i])
    ensures CopiedUpTo(known, s, i + 1, nodes + [copy.node], c + [copy])
    ensures AllNodes(c + [copy]) == AllNodes(c) + Nodes(copy)
  {
    OneMore(c, copy);
    ViewBoth(known, c, [copy]);
    assert ViewAll(known, s.content)[..i + 1] == ViewAll(known, s.content)[..i] + [View(known, s.content[i])];
    assert ViewAll(known, [copy]) == [View(known, copy)];
  }

  method CopyContent(src: YamlNode, ghost known: set<YamlNode>, ghost s: Shape) returns (nodes: seq<YamlNode?>,
                     ghost copies: seq<Shape>)
    requires Holds(s) && Distinct(s) && s.node == src && Nodes(s) !! known
    ensures fresh(AllNodes(copies)) && CopiedUpTo(known, s, |s.content|, nodes, copies)
    ensures Holds(s)
  {
    assert allocated(Nodes(s));
    nodes, copies := [], [];
    for i := 0 to |src.content|
      invariant fresh(AllNodes(copies)) && CopiedUpTo(known, s, i, nodes, copies)
      invariant Holds(s)
    {
      var n;
      n, copies := CopyChild(src, i, known, s, nodes, copies);
      nodes := nodes + [n];
    }
  }

  method CopyChild(src: YamlNode, i: nat, ghost known: set<YamlNode>, ghost s: Shape,
                   ghost nodes: seq<YamlNode?>, ghost c: seq<Shape>)
    returns (n: YamlNode, ghost now: seq<Shape>)
    requires Holds(s) && Distinct(s) && s.node == src && Nodes(s) !! known
    requires i < |s.content| && CopiedUpTo(known, s, i, nodes, c)
    ensures CopiedUpTo(known, s, i + 1, nodes + [n], now)
    ensures forall x :: x in AllNodes(now) ==> x in AllNodes(c) || fresh(x)
    ensures Holds(s)
  {
    ChildOf(s, i);
    ChildHolds(s, i);
    ghost var copy;
    n, copy := CopyBeside(src.content[i], known, s.content[i], s, c);
    OneMoreCopied(known, s, i, nodes, c, copy);
    now := c + [copy];
  }

  /** A copy, with what else is kept in sight. */
  method CopyBeside(n: YamlNode, ghost known: set<YamlNode>, ghost s: Shape, ghost whole: Shape,
                    ghost others: seq<Shape>)
    returns (r: YamlNode, ghost copy: Shape)
    requires Holds(s) && Distinct(s) && s.node == n && Nodes(s) !! known
    requires Holds(whole) && AllHold(others)
    ensures fresh(Nodes(copy)) && AllNodes(others) !! Nodes(copy)
    ensures Holds(copy) && Distinct(copy) && copy.node == r && View(known, copy) == View(known, s)
    ensures Holds(whole) && AllHold(others)
  {
    assert allocated(Nodes(whole)) && allocated(AllNodes(others));
    r, copy := CopyTree(n, known, s);
  }

  method CopyShallow(dst: YamlNode, src: YamlNode, ghost known: set<YamlNode>, ghost d: Shape, ghost s: Shape)
    returns (ghost r: Shape)
    requires Holds(d) && Distinct(d) && d.node == dst
    requires Holds(s) && Distinct(s) && s.node == src && Nodes(s) !! known && dst !in Nodes(s)
    modifies dst
    ensures Became(d, s, r)
    ensures View(known, r) == M.CopyShallow(View(known, d), View(known, s))
  {
    assert allocated(Nodes(s));
    ghost var c;
    dst.kind, dst.tag, dst.value := src.kind, src.tag, src.value;
    var nodes;
    nodes, c := CopyContent(src, known, s);
    r := Refill(dst, nodes, Shape(dst, s.kind, s.tag, s.value, []), c);
    assert ViewAll(known, s.content)[..|s.content|] == ViewAll(known, s.content);
  }

  // ---------------------------------------------------------------- merging mappings

  /** What a merge into `d` from `s` needs. */
  ghost predicate Ready(known: set<YamlNode>, d: Shape, s: Shape)
    reads Nodes(d), Nodes(s)
  {
    Holds(d) && Distinct(d) && Holds(s) && Distinct(s) && Nodes(d) !! Nodes(s) && Nodes(s) !! known
  }

  /** What it leaves: `d` has become `r`, with new nodes only, and `s` is as it was. */
  twostate predicate Became(d: Shape, s: Shape, new r: Shape)
    reads Nodes(r), Nodes(s)
  {
    Holds(r) && Distinct(r) && r.node == d.node && Holds(s) && Nodes(r) !! Nodes(s)
    && (forall x :: x in Nodes(r) ==> x in Nodes(d) || fresh(x))
  }

  /** The k-th tree of `d` can be changed without touching anything else. */
  lemma {:induction false} ChildApart(d: Shape, k: nat)
    requires Holds(d) && Distinct(d) && k < |d.content|
    ensures Labelled(d) && PointTo(d.node.content, d.content)
    ensures Holds(d.content[k]) && Distinct(d.content[k])
    ensures Nodes(d.content[k]) <= Nodes(d) && d.node !in Nodes(d.content[k])
    ensures AllHold(d.content[..k]) && AllNodes(d.content[..k]) !! Nodes(d.content[k])
    ensures AllHold(d.content[k + 1..]) && AllNodes(d.content[k + 1..]) !! Nodes(d.content[k])
  {
    var a, x, b := d.content[..k], d.content[k], d.content[k + 1..];
    Around(d.content, k);
    DistinctMiddle(a, x, b);
    NodesMiddle(a, x, b);
    HoldBoth(a, [x] + b);
    HoldBoth([x], b);
    assert [x][0] == x;
  }

  lemma {:induction false} NodesReplaced(c: seq<Shape>, k: nat, x: Shape)
    requires k < |c|
    ensures AllNodes(c[k := x]) <= AllNodes(c) + Nodes(x)
  {
    var a, b := c[..k], c[k + 1..];
    Around(c, k);
    NodesMiddle(a, c[k], b);
    assert c[k := x] == a + ([x] + b);
    NodesMiddle(a, x, b);
  }

  lemma {:induction false} DistinctReplaced(c: seq<Shape>, k: nat, x: Shape)
    requires k < |c| && AllDistinct(c) && Distinct(x)
    requires AllNodes(c[..k]) !! Nodes(x) && AllNodes(c[k + 1..]) !! Nodes(x)
    ensures AllDistinct(c[k := x])
  {
    var a, b := c[..k], c[k + 1..];
    Around(c, k);
    DistinctMiddle(a, c[k], b);
    assert c[k := x] == a + ([x] + b);
    DistinctMiddle(a, x, b);
  }

  lemma {:induction false} ReplacedNodes(d: Shape, k: nat, x: Shape)
    requires Distinct(d) && k < |d.content| && Distinct(x) && d.node !in Nodes(x)
    requires AllNodes(d.content[..k]) !! Nodes(x) && AllNodes(d.content[k + 1..]) !! Nodes(x)
    ensures var r := d.(content := d.content[k := x]); Distinct(r) && Nodes(r) <= Nodes(d) + Nodes(x)
  {
    NodesReplaced(d.content, k, x);
    DistinctReplaced(d.content, k, x);
  }

  lemma {:induction false} ReplacedHold(c: seq<Shape>, k: nat, x: Shape)
    requires k < |c| && AllHold(c[..k]) && Holds(x) && AllHold(c[k + 1..])
    ensures AllHold(c[k := x])
  {
    var a, b, r := c[..k], c[k + 1..], c[k := x];
    assert forall i :: 0 <= i < k ==> r[i] == a[i];
    assert forall i :: k < i < |c| ==> r[i] == b[i - k - 1];
  }

  lemma {:induction false} ChildReplaced(known: set<YamlNode>, d: Shape, k: nat, x: Shape)
    requires Labelled(d) && PointTo(d.node.content, d.content) && Distinct(d) && k < |d.content|
    requires AllHold(d.content[..k]) && AllHold(d.content[k + 1..])
    requires Holds(x) && Distinct(x) && x.node == d.content[k].node && d.node !in Nodes(x)
    requires AllNodes(d.content[..k]) !! Nodes(x) && AllNodes(d.content[k + 1..]) !! Nodes(x)
    ensures var r := d.(content := d.content[k := x]);
      Holds(r) && Distinct(r) && Nodes(r) <= Nodes(d) + Nodes(x)
    ensures ViewAll(known, d.content[k := x]) == ViewAll(known, d.content)[k := View(known, x)]
  {
    ReplacedNodes(d, k, x);
    ReplacedHold(d.content, k, x);
  }

  method MergeNode(dst: YamlNode, src: YamlNode, path: seq<string>, ghost known: set<YamlNode>, ghost d: Shape,
                   ghost s: Shape)
    returns (ghost r: Shape)
    requires Ready(known, d, s) && d.node == dst && s.node == src
    modifies Nodes(d)
    ensures Became(d, s, r) && View(known, r) == M.Merge(View(known, d), View(known, s), path)
    decreases s, 9
  {
    match src.kind {
      case Mapping =>
        r := MergeMappingNode(dst, src, path, known, d, s);
      case Sequence =>
        r := MergeSequence(dst, src, path, known, d, s);
      case Scalar =>
        assert allocated(Nodes(s));
        r := Relabel(dst, src.kind, src.tag, src.value, d);
      case Unset =>
        r := d;
      case Document =>
        r := CopyShallow(dst, src, known, d, s);
    }
  }

  method MergeMappingNode(dst: YamlNode, src: YamlNode, path: seq<string>, ghost known: set<YamlNode>,
                          ghost d: Shape, ghost s: Shape)
    returns (ghost r: Shape)
    requires Ready(known, d, s) && d.node == dst && s.node == src && s.kind == Mapping
    modifies Nodes(d)
    ensures Became(d, s, r) && View(known, r) == M.Merge(View(known, d), View(known, s), path)
    decreases s, 8
  {
    ghost var now := d;
    if dst.kind != Mapping {
      now := CopyShallow(dst, src, known, d, s);
    }
    r := MergeMapping(dst, src, path, known, now, s);
  }

  method MergeMapping(dst: YamlNode, src: YamlNode, path: seq<string>, ghost known: set<YamlNode>,
                      ghost d: Shape, ghost s: Shape)
    returns (ghost r: Shape)
    requires Ready(known, d, s) && d.node == dst && s.node == src
    modifies Nodes(d)
    ensures Became(d, s, r) && View(known, r) == M.MergeMapping(View(known, d), View(known, s), path)
    decreases s, 7
  {
    if dst.kind != Mapping || src.kind != Mapping {
      r := CopyShallow(dst, src, known, d, s);
      return;
    }
    r := d;
    for m := 0 to |src.content| / 2
      invariant m <= |s.content| / 2 && Ready(known, r, s) && Became(d, s, r)
      invariant MappingSoFar(known, d, r, s, m, path)
    {
      ghost var before := r;
      r := MergePair(dst, src, m, path, known, before, s);
      MappingStep(known, d, before, r, s, m, path);
    }
  }

  lemma {:induction false} MappingStep(known: set<YamlNode>, d: Shape, r: Shape, now: Shape, s: Shape, m: nat,
                                       path: seq<string>)
    requires 2 * m + 1 < |s.content| && MappingSoFar(known, d, r, s, m, path)
    requires View(known, now) ==
      View(known, r).(content := M.MergePair(View(known, r).content, View(known, s), m, path))
    ensures MappingSoFar(known, d, now, s, m + 1, path)
  {
  }

  /** After the first `m` pairs of `s`, `d` has become `r`. */
  ghost predicate MappingSoFar(known: set<YamlNode>, d: Shape, r: Shape, s: Shape, m: nat, path: seq<string>) {
    var v, w, g := View(known, d), View(known, r), View(known, s);
    m <= Pairs(g.content) && w == v.(content := w.content)
    && M.MergePairs(v.content, g, 0, path) == M.MergePairs(w.content, g, m, path)
  }

  /** The first pair of the mapping with this key, or -1. */
  method FindKey(n: YamlNode, key: string, ghost known: set<YamlNode>, ghost d: Shape) returns (r: int)
    requires Holds(d) && d.node == n
    ensures r == FindPair(View(known, d).content, key, 0)
    ensures r >= 0 ==> 2 * r + 1 < |d.content|
  {
    for m := 0 to |n.content| / 2
      invariant Holds(d) && m <= |d.content| / 2
      invariant FindPair(View(known, d).content, key, 0) == FindPair(View(known, d).content, key, m)
    {
      ChildHolds(d, 2 * m);
      if n.content[2 * m].value == key {
        return m;
      }
    }
    return -1;
  }

  /** A merge below `parent`, between the trees `a` and `b`, from a tree that is part of `whole`. */
  method MergeBeside(dst: YamlNode, src: YamlNode, path: seq<string>, ghost known: set<YamlNode>,
                     ghost d: Shape, ghost s: Shape,
                     ghost parent: Shape, ghost a: seq<Shape>, ghost b: seq<Shape>, ghost whole: Shape)
    returns (ghost r: Shape)
    requires Ready(known, d, s) && d.node == dst && s.node == src
    requires Labelled(parent) && AllHold(a) && AllHold(b) && Holds(whole)
    requires parent.node !in Nodes(d) && AllNodes(a) !! Nodes(d) && AllNodes(b) !! Nodes(d) && Nodes(whole) !! Nodes(d)
    modifies Nodes(d)
    ensures Became(d, s, r) && View(known, r) == M.Merge(View(known, d), View(known, s), path)
    ensures unchanged(parent.node) && AllHold(a) && AllHold(b) && Holds(whole)
    ensures parent.node !in Nodes(r) && AllNodes(a) !! Nodes(r) && AllNodes(b) !! Nodes(r) && Nodes(whole) !! Nodes(r)
    decreases s, 10
  {
    assert allocated(AllNodes(a)) && allocated(AllNodes(b)) && allocated(Nodes(whole));
    r := MergeNode(dst, src, path, known, d, s);
  }

  method MergePair(dst: YamlNode, src: YamlNode, m: nat, path: seq<string>, ghost known: set<YamlNode>,
                   ghost d: Shape, ghost s: Shape)
    returns (ghost r: Shape)
    requires Ready(known, d, s) && d.node == dst && s.node == src && 2 * m + 1 < |s.content|
    modifies Nodes(d)
    ensures Became(d, s, r)
    ensures View(known, r) == View(known, d).(content := M.MergePair(View(known, d).content, View(known, s), m, path))
    decreases s, 5
  {
    var key, idx := Locate(dst, src, m, known, d, s);
    if idx >= 0 {
      r := MergeField(dst, 2 * idx + 1, src, 2 * m + 1, path + [key], known, d, s);
    } else {
      r := AddField(dst, src, m, path + [key], known, d, s);
    }
    PairMerged(View(known, d), View(known, r), View(known, s), m, path, idx);
  }

  lemma {:induction false} PairMerged(v: Node, w: Node, g: Node, m: nat, path: seq<string>, r: int)
    requires 2 * m + 1 < |g.content| && r == FindPair(v.content, g.content[2 * m].value, 0)
    requires var key, value := g.content[2 * m], g.content[2 * m + 1];
      var below := path + [key.value];
      if r >= 0 then w == v.(content := v.content[2 * r + 1 := M.Merge(v.content[2 * r + 1], value, below)])
      else w == if KnownDefault(below, Prune(below, value)) then v
                else v.(content := v.content + [key, Prune(below, value)])
    ensures w == v.(content := M.MergePair(v.content, g, m, path))
  {
  }

  method Locate(dst: YamlNode, src: YamlNode, m: nat, ghost known: set<YamlNode>, ghost d: Shape, ghost s: Shape)
    returns (key: string, r: int)
    requires Ready(known, d, s) && d.node == dst && s.node == src && 2 * m + 1 < |s.content|
    ensures Ready(known, d, s)
    ensures key == View(known, s).content[2 * m].value
    ensures r == FindPair(View(known, d).content, key, 0)
    ensures r >= 0 ==> 2 * r + 1 < |d.content|
  {
    assert allocated(Nodes(d)) && allocated(Nodes(s));
    ChildHolds(s, 2 * m);
    key := src.content[2 * m].value;
    r := FindKey(dst, key, known, d);
  }

  method MergeField(dst: YamlNode, k: nat, src: YamlNode, j: nat, path: seq<string>, ghost known: set<YamlNode>,
                    ghost d: Shape, ghost s: Shape)
    returns (ghost r: Shape)
    requires Ready(known, d, s) && d.node == dst && s.node == src && k < |d.content| && j < |s.content|
    modifies Nodes(d)
    ensures Became(d, s, r)
    ensures View(known, r) == View(known, d).(content :=
      View(known, d).content[k := M.Merge(View(known, d).content[k], View(known, s).content[j], path)])
    decreases s, 4
  {
    ChildApart(d, k);
    ChildOf(s, j);
    ChildHolds(s, j);
    ghost var x := MergeBeside(dst.content[k], src.content[j], path, known, d.content[k], s.content[j],
                               d, d.content[..k], d.content[k + 1..], s);
    ChildReplaced(known, d, k, x);
    r := d.(content := d.content[k := x]);
  }

  method AddField(dst: YamlNode, src: YamlNode, m: nat, path: seq<string>, ghost known: set<YamlNode>,
                  ghost d: Shape, ghost s: Shape)
    returns (ghost r: Shape)
    requires Ready(known, d, s) && d.node == dst && s.node == src && 2 * m + 1 < |s.content|
    modifies Nodes(d)
    ensures Became(d, s, r)
    ensures var key, pruned := View(known, s).content[2 * m], Prune(path, View(known, s).content[2 * m + 1]);
      View(known, r) == if KnownDefault(path, pruned) then View(known, d)
                        else View(known, d).(content := View(known, d).content + [key, pruned])
  {
    var value, isDefault; ghost var v;
    value, isDefault, v := NewValue(src, 2 * m + 1, path, known, d, s);
    if isDefault {
      r := d;
    } else {
      r := AppendField(dst, src, 2 * m, value, known, d, s, v);
    }
  }

  method AppendField(dst: YamlNode, src: YamlNode, j: nat, value: YamlNode, ghost known: set<YamlNode>,
                     ghost d: Shape, ghost s: Shape, ghost v: Shape)
    returns (ghost r: Shape)
    requires Ready(known, d, s) && d.node == dst && s.node == src && j < |s.content|
    requires Holds(v) && Distinct(v) && v.node == value && Nodes(d) !! Nodes(v) && Nodes(s) !! Nodes(v)
    modifies dst
    ensures Holds(r) && Distinct(r) && r.node == dst && Holds(s) && Nodes(r) !! Nodes(s)
    ensures forall x :: x in Nodes(r) ==> x in Nodes(d) || x in Nodes(v) || fresh(x)
    ensures View(known, r) ==
      View(known, d).(content := View(known, d).content + [View(known, s).content[j], View(known, v)])
  {
    var key; ghost var k;
    key, k := NewKey(src, j, known, d, s, v);
    assert allocated(Nodes(s));
    r := AppendPair(dst, key, value, known, d, k, v);
  }

  /** A pruned copy of a generated value, and whether it is a default. */
  method NewValue(src: YamlNode, j: nat, path: seq<string>, ghost known: set<YamlNode>, ghost d: Shape, ghost s: Shape)
    returns (n: YamlNode, isDefault: bool, ghost v: Shape)
    requires Ready(known, d, s) && s.node == src && j < |s.content|
    ensures isDefault == KnownDefault(path, View(known, v))
    ensures Ready(known, d, s) && Holds(v) && Distinct(v) && v.node == n && fresh(Nodes(v))
    ensures Nodes(d) !! Nodes(v) && Nodes(s) !! Nodes(v)
    ensures View(known, v) == Prune(path, View(known, s).content[j])
  {
    ChildOf(s, j);
    ChildHolds(s, j);
    assert allocated(Nodes(d)) && allocated(Nodes(s));
    ghost var copy;
    n, copy := CopyTree(src.content[j], known, s.content[j]);
    v := P.Prune(path, n, known, copy);
    ViewsAreAlike(known, v);
    DefaultAlike(path, View({}, v), View(known, v));
    isDefault := KnownDefault(path, Value(n, v));
  }

  method NewKey(src: YamlNode, j: nat, ghost known: set<YamlNode>, ghost d: Shape, ghost s: Shape, ghost v: Shape)
    returns (n: YamlNode, ghost k: Shape)
    requires Ready(known, d, s) && s.node == src && j < |s.content| && Holds(v)
    ensures Ready(known, d, s) && Holds(v) && Holds(k) && Distinct(k) && k.node == n
    ensures fresh(Nodes(k)) && Nodes(d) !! Nodes(k) && Nodes(s) !! Nodes(k) && Nodes(k) !! Nodes(v)
    ensures View(known, k) == View(known, s).content[j]
  {
    ChildOf(s, j);
    ChildHolds(s, j);
    assert allocated(Nodes(d)) && allocated(Nodes(s)) && allocated(Nodes(v));
    n, k := CopyTree(src.content[j], known, s.content[j]);
  }

  method AppendPair(dst: YamlNode, key: YamlNode, value: YamlNode, ghost known: set<YamlNode>, ghost d: Shape,
                    ghost k: Shape, ghost v: Shape)
    returns (ghost r: Shape)
    requires Holds(d) && Distinct(d) && d.node == dst
    requires Holds(k) && Distinct(k) && k.node == key && Holds(v) && Distinct(v) && v.node == value
    requires Nodes(d) !! Nodes(k) && Nodes(d) !! Nodes(v) && Nodes(k) !! Nodes(v)
    modifies dst
    ensures Holds(r) && Distinct(r) && r.node == dst && Nodes(r) == Nodes(d) + Nodes(k) + Nodes(v)
    ensures View(known, r) == View(known, d).(content := View(known, d).content + [View(known, k), View(known, v)])
  {
    TwoMore(known, d.content, k, v);
    r := Refill(dst, dst.content + [key, value], d, d.content + [k, v]);
  }

  lemma {:induction false} TwoMore(known: set<YamlNode>, c: seq<Shape>, k: Shape, v: Shape)
    requires AllHold(c) && AllDistinct(c) && Holds(k) && Distinct(k) && Holds(v) && Distinct(v)
    requires AllNodes(c) !! Nodes(k) && AllNodes(c) !! Nodes(v) && Nodes(k) !! Nodes(v)
    ensures AllHold(c + [k, v]) && AllDistinct(c + [k, v]) && AllNodes(c + [k, v]) == AllNodes(c) + Nodes(k) + Nodes(v)
    ensures ViewAll(known, c + [k, v]) == ViewAll(known, c) + [View(known, k), View(known, v)]
  {
    OneMore(c, k);
    OneMore(c + [k], v);
    assert c + [k] + [v] == c + [k, v];
  }

  // ---------------------------------------------------------------- dropping keys of a merged element

  ghost function ListedKeys(g: seq<Node>): set<string> {
    set m | 0 <= m < Pairs(g) && Trim(KeyAt(g, m).value) != "" :: Trim(KeyAt(g, m).value)
  }

  /** The trimmed keys of a mapping, blank ones left out. */
  method KeysOf(src: YamlNode, ghost known: set<YamlNode>, ghost s: Shape) returns (keep: set<string>)
    requires Holds(s) && s.node == src
    ensures keep == ListedKeys(View(known, s).content)
    ensures Holds(s)
  {
    ghost var v := View(known, s).content;
    keep := {};
    for m := 0 to |src.content| / 2
      invariant Holds(s) && m <= Pairs(v)
      invariant forall k :: k in keep <==> k != "" && exists j :: 0 <= j < m && Trim(KeyAt(v, j).value) == k
    {
      ChildHolds(s, 2 * m);
      var key := Trim(src.content[2 * m].value);
      assert key == Trim(KeyAt(v, m).value);
      if key != "" {
        keep := keep + {key};
      }
    }
  }

  /** `cur` is `d` with its first `m` pairs gone through and `i` nodes of them kept. */
  ghost predicate Dropping(known: set<YamlNode>, d: Shape, g: seq<Node>, cur: Shape, m: nat, i: nat) {
    2 * m <= |d.content| && i <= |cur.content|
    && cur == d.(content := cur.content) && SameTail(cur.content, i, d.content, 2 * m)
    && Distinct(cur) && Nodes(cur) <= Nodes(d)
    && DroppedSoFar(ViewAll(known, d.content), g, ViewAll(known, cur.content), m, i)
  }

  ghost predicate SameTail(a: seq<Shape>, i: nat, b: seq<Shape>, k: nat) {
    |a| - i == |b| - k && forall j :: i <= j < |a| ==> a[j] == b[k + j - i]
  }

  ghost predicate DroppedSoFar(v: seq<Node>, g: seq<Node>, w: seq<Node>, m: nat, i: nat) {
    m <= Pairs(v) && i <= |w| && M.KeepListed(v, g, 0) == w[..i] + M.KeepListed(v, g, m)
  }

  lemma {:induction false} Without(c: seq<Shape>, i: nat)
    requires i + 1 < |c| && AllDistinct(c)
    ensures var r := c[..i] + c[i + 2..]; AllDistinct(r) && AllNodes(r) <= AllNodes(c)
  {
    assert c == c[..i] + (c[i..i + 2] + c[i + 2..]);
    DistinctBoth(c[..i], c[i..i + 2] + c[i + 2..]);
    DistinctBoth(c[i..i + 2], c[i + 2..]);
    NodesOfBoth(c[..i], c[i..i + 2] + c[i + 2..]);
    NodesOfBoth(c[i..i + 2], c[i + 2..]);
    DistinctBoth(c[..i], c[i + 2..]);
    NodesOfBoth(c[..i], c[i + 2..]);
  }

  lemma {:induction false} TailWithout(known: set<YamlNode>, c: seq<Shape>, i: nat, b: seq<Shape>, k: nat)
    requires i + 1 < |c| && SameTail(c, i, b, k)
    ensures SameTail(c[..i] + c[i + 2..], i, b, k + 2)
    ensures ViewAll(known, c[..i] + c[i + 2..])[..i] == ViewAll(known, c)[..i]
  {
  }

  lemma {:induction false} Dropped(known: set<YamlNode>, d: Shape, g: seq<Node>, cur: Shape, m: nat, i: nat)
    requires Dropping(known, d, g, cur, m, i) && i + 1 < |cur.content|
    requires !M.Listed(g, Trim(cur.content[i].value))
    ensures Dropping(known, d, g, cur.(content := cur.content[..i] + cur.content[i + 2..]), m + 1, i)
  {
    Without(cur.content, i);
    TailWithout(known, cur.content, i, d.content, 2 * m);
    assert cur.content[i] == d.content[2 * m];
    UnlistedSkipped(ViewAll(known, d.content), g, m);
  }

  lemma {:induction false} UnlistedSkipped(v: seq<Node>, g: seq<Node>, m: nat)
    requires m < Pairs(v) && !M.Listed(g, Trim(KeyAt(v, m).value))
    ensures M.KeepListed(v, g, m) == M.KeepListed(v, g, m + 1)
  {
    assert [] + M.KeepListed(v, g, m + 1) == M.KeepListed(v, g, m + 1);
  }

  lemma {:induction false} NotDropped(known: set<YamlNode>, d: Shape, g: seq<Node>, cur: Shape, m: nat, i: nat)
    requires Dropping(known, d, g, cur, m, i) && i + 1 < |cur.content|
    requires M.Listed(g, Trim(cur.content[i].value))
    ensures Dropping(known, d, g, cur, m + 1, i + 2)
  {
    var v, w := ViewAll(known, d.content), ViewAll(known, cur.content);
    assert cur.content[i] == d.content[2 * m] && cur.content[i + 1] == d.content[2 * m + 1];
    Associative(w[..i], [KeyAt(v, m), ValueAt(v, m)], M.KeepListed(v, g, m + 1));
    assert w[..i + 2] == w[..i] + [KeyAt(v, m), ValueAt(v, m)];
  }

  method RemovePair(dst: YamlNode, i: nat, ghost cur: Shape) returns (ghost now: Shape)
    requires Holds(cur) && Distinct(cur) && cur.node == dst && i + 1 < |cur.content|
    modifies dst`content
    ensures now == cur.(content := cur.content[..i] + cur.content[i + 2..]) && Holds(now) && Distinct(now)
  {
    ghost var c := cur.content[..i] + cur.content[i + 2..];
    Without(cur.content, i);
    assert AllHold(c);
    now := Refill(dst, dst.content[..i] + dst.content[i + 2..], cur, c);
  }

  method DropMissing(dst: YamlNode, src: YamlNode, ghost known: set<YamlNode>, ghost d: Shape, ghost s: Shape)
    returns (ghost r: Shape)
    requires Holds(d) && Distinct(d) && d.node == dst && Holds(s) && s.node == src && Nodes(d) !! Nodes(s)
    modifies dst`content
    ensures Holds(r) && Distinct(r) && r.node == dst && Nodes(r) <= Nodes(d) && Holds(s)
    ensures View(known, r) == M.PruneMissing(View(known, d), View(known, s))
  {
    if dst.kind != Mapping || src.kind != Mapping {
      return d;
    }
    assert allocated(Nodes(d)) && allocated(Nodes(s));
    var keep := KeysOf(src, known, s);
    r := DropUnlisted(dst, keep, known, d, View(known, s).content);
  }

  method DropUnlisted(dst: YamlNode, keep: set<string>, ghost known: set<YamlNode>, ghost d: Shape,
                      ghost g: seq<Node>) returns (ghost r: Shape)
    requires Holds(d) && Distinct(d) && d.node == dst && keep == ListedKeys(g)
    modifies dst`content
    ensures Holds(r) && Distinct(r) && r.node == dst && Nodes(r) <= Nodes(d)
    ensures View(known, r) == View(known, d).(content := M.KeepListed(View(known, d).content, g, 0))
  {
    DropsStart(known, d, g);
    ghost var m, i;
    m, i, r := DropPairs(dst, keep, known, d, g);
    DropsDone(known, d, g, r, m, i);
  }

  method DropPairs(dst: YamlNode, keep: set<string>, ghost known: set<YamlNode>, ghost d: Shape, ghost g: seq<Node>)
    returns (ghost m: nat, ghost i: nat, ghost r: Shape)
    requires Holds(d) && d.node == dst && keep == ListedKeys(g) && Dropping(known, d, g, d, 0, 0)
    modifies dst`content
    ensures Holds(r) && Dropping(known, d, g, r, m, i) && i + 1 >= |r.content|
  {
    m, r := 0, d;
    var next: nat := 0;
    while next + 1 < |dst.content|
      invariant Holds(r) && Dropping(known, d, g, r, m, next)
      decreases |dst.content| - next
    {
      next, r := DropPair(dst, next, keep, known, d, g, r, m);
      m := m + 1;
    }
    i := next;
  }

  method DropPair(dst: YamlNode, i: nat, keep: set<string>, ghost known: set<YamlNode>, ghost d: Shape,
                  ghost g: seq<Node>, ghost cur: Shape, ghost m: nat)
    returns (next: nat, ghost r: Shape)
    requires Holds(cur) && Dropping(known, d, g, cur, m, i) && d.node == dst && i + 1 < |dst.content|
    requires keep == ListedKeys(g)
    modifies dst`content
    ensures Holds(r) && Dropping(known, d, g, r, m + 1, next) && r.node == dst
    ensures |dst.content| - next < |old(dst.content)| - i
  {
    ChildHolds(cur, i);
    if Trim(dst.content[i].value) !in keep {
      Dropped(known, d, g, cur, m, i);
      next := i;
      r := RemovePair(dst, i, cur);
    } else {
      NotDropped(known, d, g, cur, m, i);
      next, r := i + 2, cur;
    }
  }

  lemma {:induction false} DropsStart(known: set<YamlNode>, d: Shape, g: seq<Node>)
    requires Distinct(d)
    ensures Dropping(known, d, g, d, 0, 0)
  {
    var all := M.KeepListed(ViewAll(known, d.content), g, 0);
    assert ViewAll(known, d.content)[..0] + all == all;
  }

  lemma {:induction false} DropsDone(known: set<YamlNode>, d: Shape, g: seq<Node>, cur: Shape, m: nat, i: nat)
    requires Dropping(known, d, g, cur, m, i) && i + 1 >= |cur.content|
    ensures cur.node == d.node && Distinct(cur) && Nodes(cur) <= Nodes(d)
    ensures View(known, cur) == View(known, d).(content := M.KeepListed(View(known, d).content, g, 0))
  {
    var v, w := ViewAll(known, d.content), ViewAll(known, cur.content);
    assert M.KeepListed(v, g, m) == v[2 * m..];
    assert w[i..] == v[2 * m..];
    assert w == w[..i] + w[i..];
  }

  // ---------------------------------------------------------------- merging sequences

  /** Slots lie in the list and none is taken twice. */
  ghost predicate Slotted(c: seq<Shape>, slots: seq<int>) {
    (forall i :: 0 <= i < |slots| ==> -1 <= slots[i] < |c|)
    && forall i, j :: 0 <= i < j < |slots| && slots[i] >= 0 ==> slots[i] != slots[j]
  }

  /** The old elements that the slots from the i-th on take. */
  ghost function Waiting(c: seq<Shape>, slots: seq<int>, i: nat): seq<Shape>
    requires i <= |slots| && Slotted(c, slots)
    decreases |slots| - i
  {
    if i == |slots| then []
    else (if slots[i] < 0 then [] else [c[slots[i]]]) + Waiting(c, slots, i + 1)
  }

  lemma {:induction false} WaitingNodes(c: seq<Shape>, slots: seq<int>, i: nat, j: nat)
    requires i <= |slots| && Slotted(c, slots) && AllDistinct(c) && j < |c|
    requires forall k :: i <= k < |slots| ==> slots[k] != j
    ensures Nodes(c[j]) !! AllNodes(Waiting(c, slots, i))
    decreases |slots| - i
  {
    if i < |slots| {
      WaitingNodes(c, slots, i + 1, j);
      if slots[i] >= 0 {
        NodesOfBoth([c[slots[i]]], Waiting(c, slots, i + 1));
        NodesOfOne(c[slots[i]]);
      } else {
        assert [] + Waiting(c, slots, i + 1) == Waiting(c, slots, i + 1);
      }
    }
  }

  lemma {:induction false} FirstOf(x: Shape, rest: seq<Shape>)
    ensures AllNodes([x] + rest) == Nodes(x) + AllNodes(rest)
    ensures AllDistinct([x] + rest) <==> Distinct(x) && AllDistinct(rest) && Nodes(x) !! AllNodes(rest)
  {
    DistinctBoth([x], rest);
    DistinctOne(x);
    NodesOfBoth([x], rest);
    NodesOfOne(x);
  }

  lemma {:induction false} WaitingUnfolds(c: seq<Shape>, slots: seq<int>, i: nat)
    requires i < |slots| && Slotted(c, slots)
    ensures Waiting(c, slots, i) ==
      if slots[i] < 0 then Waiting(c, slots, i + 1) else [c[slots[i]]] + Waiting(c, slots, i + 1)
  {
    assert [] + Waiting(c, slots, i + 1) == Waiting(c, slots, i + 1);
  }

  lemma {:induction false} WaitingInside(c: seq<Shape>, slots: seq<int>, i: nat)
    requires i <= |slots| && Slotted(c, slots)
    ensures AllNodes(Waiting(c, slots, i)) <= AllNodes(c)
    decreases |slots| - i
  {
    if i < |slots| {
      WaitingUnfolds(c, slots, i);
      WaitingInside(c, slots, i + 1);
      if slots[i] >= 0 {
        assert Nodes(c[slots[i]]) <= AllNodes(c);
        FirstOf(c[slots[i]], Waiting(c, slots, i + 1));
      }
    }
  }

  lemma {:induction false} WaitingHold(c: seq<Shape>, slots: seq<int>, i: nat)
    requires i <= |slots| && Slotted(c, slots) && AllHold(c)
    ensures AllHold(Waiting(c, slots, i))
    decreases |slots| - i
  {
    if i < |slots| {
      WaitingHold(c, slots, i + 1);
    }
  }

  /** The next element and those after it. */
  lemma {:induction false} WaitingNext(c: seq<Shape>, slots: seq<int>, i: nat)
    requires i < |slots| && Slotted(c, slots) && AllDistinct(c) && AllHold(Waiting(c, slots, i))
    ensures AllHold(Waiting(c, slots, i + 1)) && AllNodes(Waiting(c, slots, i + 1)) <= AllNodes(Waiting(c, slots, i))
    ensures slots[i] >= 0 ==>
      Holds(c[slots[i]]) && Distinct(c[slots[i]]) && Nodes(c[slots[i]]) <= AllNodes(Waiting(c, slots, i))
      && Nodes(c[slots[i]]) !! AllNodes(Waiting(c, slots, i + 1))
  {
    var rest := Waiting(c, slots, i + 1);
    if slots[i] >= 0 {
      var x := c[slots[i]];
      WaitingNodes(c, slots, i + 1, slots[i]);
      NodesOfBoth([x], rest);
      NodesOfOne(x);
      HoldBoth([x], rest);
      assert [x][0] == x;
    } else {
      assert [] + rest == rest;
    }
  }

  ghost predicate Ordered(nodes: seq<YamlNode?>, c: seq<Shape>, slots: seq<int>, i: nat) {
    |nodes| == |slots| && Slotted(c, slots)
    && forall k :: i <= k < |slots| ==> nodes[k] == if slots[k] < 0 then null else c[slots[k]].node
  }

  ghost predicate FilledSoFar(v: Node, g: Node, slots: seq<int>, path: seq<string>, done: seq<Node>, i: nat) {
    i <= |slots| == |g.content| && (forall k :: 0 <= k < |slots| ==> -1 <= slots[k] < |v.content|)
    && M.MergeElements(v.content, slots, g, 0, path) == done + M.MergeElements(v.content, slots, g, i, path)
  }

  /** The first `i` elements of `d` are filled with `done`, the others wait in their slots. */
  ghost predicate Filling(known: set<YamlNode>, d: Shape, s: Shape, slots: seq<int>, path: seq<string>,
                          done: seq<Shape>, i: nat)
    requires i <= |slots| && Slotted(d.content, slots)
    reads d.node, AllNodes(done), AllNodes(Waiting(d.content, slots, i)), Nodes(s)
  {
    Labelled(d) && Ordered(d.node.content, d.content, slots, i) && PointTo(d.node.content[..i], done)
    && AllHold(done) && AllDistinct(done) && d.node !in AllNodes(done)
    && AllHold(Waiting(d.content, slots, i)) && AllNodes(done) !! AllNodes(Waiting(d.content, slots, i))
    && Holds(s) && AllNodes(done) !! Nodes(s)
    && FilledSoFar(View(known, d), View(known, s), slots, path, ViewAll(known, done), i)
  }

  lemma {:induction false} ViewOneMore(known: set<YamlNode>, c: seq<Shape>, x: Shape)
    ensures ViewAll(known, c + [x]) == ViewAll(known, c) + [View(known, x)]
  {
    ViewBoth(known, c, [x]);
  }

  lemma {:induction false} FilledOneMore(v: Node, g: Node, slots: seq<int>, path: seq<string>, done: seq<Node>,
                                         i: nat, x: Node)
    requires i < |slots| && FilledSoFar(v, g, slots, path, done, i)
    requires x == if slots[i] < 0 then g.content[i]
                  else M.PruneMissing(M.Merge(v.content[slots[i]], g.content[i], path), g.content[i])
    ensures FilledSoFar(v, g, slots, path, done + [x], i + 1)
  {
    Associative(done, [x], M.MergeElements(v.content, slots, g, i + 1, path));
  }

  lemma {:induction false} SlotFilled(known: set<YamlNode>, d: Shape, s: Shape, slots: seq<int>,
                                      path: seq<string>, done: seq<Shape>, i: nat, x: Shape)
    requires i < |slots| == |s.content| && Slotted(d.content, slots)
    requires Labelled(d) && Ordered(d.node.content, d.content, slots, i + 1)
    requires PointTo(d.node.content[..i], done) && d.node.content[i] == x.node
    requires AllHold(done) && AllDistinct(done) && d.node !in AllNodes(done) && AllNodes(done) !! Nodes(s)
    requires Holds(x) && Distinct(x) && d.node !in Nodes(x) && Nodes(x) !! Nodes(s) && AllNodes(done) !! Nodes(x)
    requires var rest := Waiting(d.content, slots, i + 1);
      AllHold(rest) && AllNodes(done) !! AllNodes(rest) && Nodes(x) !! AllNodes(rest)
    requires Holds(s) && FilledSoFar(View(known, d), View(known, s), slots, path, ViewAll(known, done), i)
    requires View(known, x) == (if slots[i] < 0 then View(known, s.content[i])
      else M.PruneMissing(M.Merge(View(known, d.content[slots[i]]), View(known, s.content[i]), path),
                          View(known, s.content[i])))
    ensures Filling(known, d, s, slots, path, done + [x], i + 1)
    ensures AllNodes(done + [x]) == AllNodes(done) + Nodes(x)
  {
    OneMore(done, x);
    FilledOneMore(View(known, d), View(known, s), slots, path, ViewAll(known, done), i, View(known, x));
    ViewOneMore(known, done, x);
    assert d.node.content[..i + 1] == d.node.content[..i] + [x.node];
  }

  /** The merge of one sequence element, with what else is kept in sight. */
  method MergeElement(dst: YamlNode, src: YamlNode, path: seq<string>, ghost known: set<YamlNode>,
                      ghost d: Shape, ghost s: Shape,
                      ghost parent: Shape, ghost a: seq<Shape>, ghost b: seq<Shape>, ghost whole: Shape)
    returns (ghost r: Shape)
    requires Ready(known, d, s) && d.node == dst && s.node == src
    requires Labelled(parent) && AllHold(a) && AllHold(b) && Holds(whole)
    requires parent.node !in Nodes(d) && AllNodes(a) !! Nodes(d) && AllNodes(b) !! Nodes(d) && Nodes(whole) !! Nodes(d)
    modifies Nodes(d)
    ensures Holds(r) && Distinct(r) && r.node == dst && forall x :: x in Nodes(r) ==> x in Nodes(d) || fresh(x)
    ensures View(known, r) == M.PruneMissing(M.Merge(View(known, d), View(known, s), path), View(known, s))
    ensures unchanged(parent.node) && AllHold(a) && AllHold(b) && Holds(whole)
    ensures parent.node !in Nodes(r) && AllNodes(a) !! Nodes(r) && AllNodes(b) !! Nodes(r) && Nodes(whole) !! Nodes(r)
    decreases s, 11
  {
    assert allocated(AllNodes(a)) && allocated(AllNodes(b)) && allocated(Nodes(whole));
    ghost var m := MergeBeside(dst, src, path, known, d, s, parent, a, b, whole);
    r := DropMissing(dst, src, known, m, s);
  }

  lemma {:induction false} ViewsOfLists(known: set<YamlNode>, c: seq<Shape>)
    ensures AllAlike(ViewAll({}, c), ViewAll(known, c))
  {
    forall i | 0 <= i < |c| ensures Alike(View({}, c[i]), View(known, c[i])) {
      ViewsAreAlike(known, c[i]);
    }
  }

  /** The slots found for the first `i` targets, with `used` taken, are the first `i` of all. */
  ghost predicate Matched(original: seq<Node>, targets: seq<Node>, slots: seq<int>, used: set<nat>, i: nat) {
    i <= |targets| && |slots| == i
    && Slots(original, {}, targets) == slots + Slots(original, used, targets[i..])
  }

  lemma {:induction false} MatchedOneMore(original: seq<Node>, targets: seq<Node>, slots: seq<int>,
                                          used: set<nat>, i: nat, j: int)
    requires Matched(original, targets, slots, used, i) && i < |targets|
    requires j == MatchElement(original, used, targets[i])
    ensures Matched(original, targets, slots + [j], if j < 0 then used else used + {j as nat}, i + 1)
  {
    var now := if j < 0 then used else used + {j as nat};
    assert targets[i..][0] == targets[i] && targets[i..][1..] == targets[i + 1..];
    Associative(slots, [j], Slots(original, now, targets[i + 1..]));
  }

  lemma {:induction false} SlotsAreSlotted(known: set<YamlNode>, c: seq<Shape>, targets: seq<Node>)
    ensures Slotted(c, Slots(ViewAll(known, c), {}, targets))
  {
    var original := ViewAll(known, c);
    var slots := Slots(original, {}, targets);
    forall i, j | 0 <= i < j < |slots| && slots[i] >= 0 ensures slots[i] != slots[j] {
      SlotsAreMatches(original, {}, targets, j);
      if slots[j] >= 0 {
        assert TakenBefore(slots, j, slots[i]);
      }
    }
  }

  /** The old elements in the order of the generated ones, null where there is none. */
  method Reorder(dst: YamlNode, src: YamlNode, ghost known: set<YamlNode>, ghost d: Shape, ghost s: Shape)
    returns (ordered: seq<YamlNode?>, ghost slots: seq<int>)
    requires Holds(d) && d.node == dst && Holds(s) && s.node == src
    ensures slots == Slots(View(known, d).content, {}, View(known, s).content)
    ensures Ordered(ordered, d.content, Slots(View(known, d).content, {}, View(known, s).content), 0)
  {
    var original := Values(dst.content, d.content, 0);
    ghost var v, g := ViewAll(known, d.content), ViewAll(known, s.content);
    assert allocated(Nodes(d)) && allocated(Nodes(s));
    assert ViewAll({}, d.content)[0..] == ViewAll({}, d.content);
    var used: set<nat> := {};
    ordered, slots := [], [];
    assert g[0..] == g;
    for i := 0 to |src.content|
      invariant Holds(d) && Holds(s) && Reordering(known, d, g, ordered, slots, used, i)
    {
      var j := Pick(original, used, src, i, known, d, s);
      ReorderedOneMore(known, d, g, ordered, slots, used, i, j);
      ordered := ordered + [if j < 0 then null else dst.content[j]];
      used := if j < 0 then used else used + {j};
      slots := slots + [j];
    }
    assert slots == Slots(v, {}, g);
    SlotsAreSlotted(known, d.content, g);
  }

  method Pick(original: seq<Node>, used: set<nat>, src: YamlNode, i: nat, ghost known: set<YamlNode>,
              ghost d: Shape, ghost s: Shape) returns (j: int)
    requires original == ViewAll({}, d.content) && Holds(s) && s.node == src && i < |s.content|
    ensures j == MatchElement(ViewAll(known, d.content), used, View(known, s.content[i]))
  {
    ChildHolds(s, i);
    ViewsOfLists(known, d.content);
    ViewsAreAlike(known, s.content[i]);
    MatchAlike(original, ViewAll(known, d.content), used, View({}, s.content[i]), View(known, s.content[i]));
    j := MatchElement(original, used, Value(src.content[i], s.content[i]));
  }

  lemma {:induction false} ReorderedOneMore(known: set<YamlNode>, d: Shape, g: seq<Node>,
                                            ordered: seq<YamlNode?>, slots: seq<int>, used: set<nat>, i: nat,
                                            j: int)
    requires Reordering(known, d, g, ordered, slots, used, i) && i < |g|
    requires j == MatchElement(ViewAll(known, d.content), used, g[i])
    ensures -1 <= j < |d.content|
    ensures Reordering(known, d, g, ordered + [if j < 0 then null else d.content[j].node], slots + [j],
                       if j < 0 then used else used + {j as nat}, i + 1)
  {
    MatchedOneMore(ViewAll(known, d.content), g, slots, used, i, j);
  }

  /** The slots of the first `i` elements are found and their old elements picked. */
  ghost predicate Reordering(known: set<YamlNode>, d: Shape, g: seq<Node>, ordered: seq<YamlNode?>,
                             slots: seq<int>, used: set<nat>, i: nat) {
    |ordered| == i && Matched(ViewAll(known, d.content), g, slots, used, i)
    && (forall k :: 0 <= k < |slots| ==> -1 <= slots[k] < |d.content|)
    && forall k :: 0 <= k < i ==> ordered[k] == if slots[k] < 0 then null else d.content[slots[k]].node
  }

  method MergeSequence(dst: YamlNode, src: YamlNode, path: seq<string>, ghost known: set<YamlNode>,
                       ghost d: Shape, ghost s: Shape)
    returns (ghost r: Shape)
    requires Ready(known, d, s) && d.node == dst && s.node == src && s.kind == Sequence
    modifies Nodes(d)
    ensures Became(d, s, r) && View(known, r) == M.Merge(View(known, d), View(known, s), path)
    decreases s, 7
  {
    if dst.kind == Scalar && dst.tag == "!!null" && |src.content| == 0 {
      return d;
    }
    ghost var now := d;
    if dst.kind != Sequence {
      now := ResetSequence(dst, known, d, s);
    }
    r := MergeElements(dst, src, path, known, now, s);
  }

  method ResetSequence(dst: YamlNode, ghost known: set<YamlNode>, ghost d: Shape, ghost s: Shape)
    returns (ghost r: Shape)
    requires Ready(known, d, s) && d.node == dst
    modifies dst
    ensures Ready(known, r, s) && r.node == dst && Nodes(r) <= Nodes(d)
    ensures View(known, r) == View(known, d).(kind := Sequence, tag := "!!seq", content := [])
  {
    assert allocated(Nodes(s));
    dst.kind, dst.tag, dst.content := Sequence, "!!seq", [];
    r := Shape(dst, Sequence, "!!seq", d.value, []);
    assert View(known, r).content == [];
  }

  /** What the filling of a slot may rely on throughout. */
  ghost predicate Fillable(known: set<YamlNode>, d: Shape, s: Shape, slots: seq<int>) {
    Distinct(d) && Distinct(s) && Nodes(d) !! Nodes(s) && Nodes(s) !! known
    && |slots| == |s.content| && Slotted(d.content, slots)
  }

  method FillNew(dst: YamlNode, src: YamlNode, i: nat, path: seq<string>, ghost known: set<YamlNode>,
                 ghost d: Shape, ghost s: Shape,
                 ghost slots: seq<int>, ghost done: seq<Shape>)
    returns (ghost x: Shape)
    requires Fillable(known, d, s, slots) && d.node == dst && s.node == src && i < |slots| && slots[i] < 0
    requires Filling(known, d, s, slots, path, done, i)
    modifies dst
    ensures Filling(known, d, s, slots, path, done + [x], i + 1)
    ensures AllNodes(done + [x]) == AllNodes(done) + Nodes(x) && fresh(Nodes(x))
  {
    ghost var rest := Waiting(d.content, slots, i + 1);
    WaitingNext(d.content, slots, i);
    WaitingInside(d.content, slots, i + 1);
    ChildOf(s, i);
    ChildHolds(s, i);
    assert allocated(Nodes(d)) && allocated(AllNodes(rest)) && allocated(AllNodes(done)) && allocated(Nodes(s));
    var n;
    n, x := CopyBeside(src.content[i], known, s.content[i], s, done);
    dst.content := dst.content[i := n];
    SlotFilled(known, d, s, slots, path, done, i, x);
  }

  method FillOld(dst: YamlNode, src: YamlNode, i: nat, path: seq<string>, ghost known: set<YamlNode>,
                 ghost d: Shape, ghost s: Shape,
                 ghost slots: seq<int>, ghost done: seq<Shape>)
    returns (ghost x: Shape)
    requires Fillable(known, d, s, slots) && d.node == dst && s.node == src && i < |slots| && slots[i] >= 0
    requires Filling(known, d, s, slots, path, done, i)
    modifies Nodes(d.content[slots[i]])
    ensures Filling(known, d, s, slots, path, done + [x], i + 1)
    ensures AllNodes(done + [x]) == AllNodes(done) + Nodes(x)
    ensures forall y :: y in Nodes(x) ==> y in Nodes(d) || fresh(y)
    decreases s, 4
  {
    ghost var child, rest := d.content[slots[i]], Waiting(d.content, slots, i + 1);
    WaitingNext(d.content, slots, i);
    ChildOf(d, slots[i]);
    ChildOf(s, i);
    ChildHolds(s, i);
    x := MergeElement(dst.content[i], src.content[i], path, known, child, s.content[i], d, done, rest, s);
    SlotFilled(known, d, s, slots, path, done, i, x);
  }

  lemma {:induction false} FillingStarts(known: set<YamlNode>, d: Shape, s: Shape, slots: seq<int>, path: seq<string>)
    requires Fillable(known, d, s, slots) && Labelled(d) && Ordered(d.node.content, d.content, slots, 0)
    requires AllHold(d.content) && Holds(s)
    ensures Filling(known, d, s, slots, path, [], 0)
  {
    WaitingHold(d.content, slots, 0);
    var all := M.MergeElements(ViewAll(known, d.content), slots, View(known, s), 0, path);
    assert [] + all == all;
  }

  lemma {:induction false} FillingEnds(known: set<YamlNode>, d: Shape, s: Shape, slots: seq<int>,
                                       path: seq<string>, done: seq<Shape>)
    requires Fillable(known, d, s, slots) && Filling(known, d, s, slots, path, done, |slots|)
    ensures var r := d.(content := done);
      Holds(r) && Distinct(r) && Holds(s) && Nodes(r) !! Nodes(s)
    ensures ViewAll(known, done) == M.MergeElements(View(known, d).content, slots, View(known, s), 0, path)
  {
    assert d.node.content[..|slots|] == d.node.content;
  }

  method FillSlots(dst: YamlNode, src: YamlNode, path: seq<string>, ghost known: set<YamlNode>, ghost d: Shape,
                   ghost s: Shape, ghost slots: seq<int>)
    returns (ghost r: Shape)
    requires Fillable(known, d, s, slots) && d.node == dst && s.node == src
    requires Filling(known, d, s, slots, path, [], 0)
    modifies Nodes(d)
    ensures Became(d, s, r)
    ensures View(known, r) ==
      View(known, d).(content := M.MergeElements(View(known, d).content, slots, View(known, s), 0, path))
    decreases s, 5
  {
    ghost var done: seq<Shape> := [];
    for i := 0 to |src.content|
      invariant i <= |slots| && |src.content| == |slots| && Filling(known, d, s, slots, path, done, i)
      invariant forall y :: y in AllNodes(done) ==> y in Nodes(d) || fresh(y)
    {
      ghost var x;
      if dst.content[i] == null {
        x := FillNew(dst, src, i, path, known, d, s, slots, done);
      } else {
        x := FillOld(dst, src, i, path, known, d, s, slots, done);
      }
      done := done + [x];
    }
    FillingEnds(known, d, s, slots, path, done);
    r := d.(content := done);
  }

  /** With nothing to reuse every element is new. */
  lemma {:induction false} AllNew(g: Node, slots: seq<int>, i: nat, path: seq<string>)
    requires i <= |slots| == |g.content| && forall k :: 0 <= k < |slots| ==> slots[k] == -1
    ensures M.MergeElements([], slots, g, i, path) == g.content[i..]
    decreases |slots| - i
  {
    if i < |slots| {
      AllNew(g, slots, i + 1, path);
    }
  }

  method MergeElements(dst: YamlNode, src: YamlNode, path: seq<string>, ghost known: set<YamlNode>,
                       ghost d: Shape, ghost s: Shape)
    returns (ghost r: Shape)
    requires Ready(known, d, s) && d.node == dst && s.node == src
    modifies Nodes(d)
    ensures Became(d, s, r)
    ensures var v, g := View(known, d), View(known, s);
      View(known, r) == v.(content := M.MergeElements(v.content, Slots(v.content, {}, g.content), g, 0, path))
    decreases s, 6
  {
    assert allocated(Nodes(d)) && allocated(Nodes(s));
    if |dst.content| == 0 || |src.content| == 0 {
      r := ReplaceElements(dst, src, path, known, d, s);
      return;
    }
    ghost var slots;
    var ordered;
    ordered, slots := Reorder(dst, src, known, d, s);
    dst.content := ordered;
    FillingStarts(known, d, s, slots, path);
    r := FillSlots(dst, src, path, known, d, s, slots);
  }

  /** With nothing to reuse, or nothing wanted, the elements are copies of the generated ones. */
  method ReplaceElements(dst: YamlNode, src: YamlNode, path: seq<string>, ghost known: set<YamlNode>,
                         ghost d: Shape, ghost s: Shape)
    returns (ghost r: Shape)
    requires Ready(known, d, s) && d.node == dst && s.node == src && (|d.content| == 0 || |s.content| == 0)
    modifies dst`content
    ensures Became(d, s, r)
    ensures var v, g := View(known, d), View(known, s);
      View(known, r) == v.(content := M.MergeElements(v.content, Slots(v.content, {}, g.content), g, 0, path))
  {
    assert allocated(Nodes(d)) && allocated(Nodes(s));
    var nodes; ghost var c;
    nodes, c := CopyContent(src, known, s);
    r := Refill(dst, nodes, d, c);
    ghost var v, g := View(known, d), View(known, s);
    assert g.content[..|s.content|] == g.content == g.content[0..];
    if |d.content| == 0 {
      AllNew(g, Slots(v.content, {}, g.content), 0, path);
    }
  }

  // ---------------------------------------------------------------- which nodes stand where

  ghost function ChildAt(known: set<YamlNode>, s: Shape, step: M.Step): Option<Shape> {
    match step
    case Key(k) =>
      var m := FindPair(ViewAll(known, s.content), k, 0);
      if s.kind == Mapping && m >= 0 then Some(s.content[2 * m + 1]) else None
    case Index(i) => if s.kind == Sequence && i < |s.content| then Some(s.content[i]) else None
  }

  /** The tree at a path. */
  ghost function At(known: set<YamlNode>, s: Shape, p: seq<M.Step>): Option<Shape>
    decreases |p|
  {
    if p == [] then Some(s)
    else
      match ChildAt(known, s, p[0])
      case None => None
      case Some(child) => At(known, child, p[1..])
  }

  lemma {:induction false} ChildViews(known: set<YamlNode>, s: Shape, step: M.Step)
    ensures match ChildAt(known, s, step)
      case None => M.Child(View(known, s), step) == None
      case Some(x) => M.Child(View(known, s), step) == Some(View(known, x)) && Nodes(x) <= Nodes(s)
  {
    if ChildAt(known, s, step).Some? {
      var i := if step.Key? then 2 * FindPair(ViewAll(known, s.content), step.key, 0) + 1 else step.index;
      ChildOf(s, i);
    }
  }

  lemma {:induction false} FindIsAt(known: set<YamlNode>, s: Shape, p: seq<M.Step>)
    ensures match At(known, s, p)
      case None => M.Find(View(known, s), p) == None
      case Some(x) => M.Find(View(known, s), p) == Some(View(known, x)) && Nodes(x) <= Nodes(s)
    decreases |p|
  {
    if p != [] {
      ChildViews(known, s, p[0]);
      if ChildAt(known, s, p[0]).Some? {
        FindIsAt(known, ChildAt(known, s, p[0]).value, p[1..]);
      }
    }
  }

  /** Away from sequences, the node object that was at a path of the user's tree is still there after
      the merge, and where the generated tree has nothing the whole tree below it is as it was. */
  lemma {:induction false} UserNodesStay(d: Shape, s: Shape, r: Shape, p: seq<M.Step>, path: seq<string>)
    requires var known := Nodes(d);
      View(known, r) == M.Merge(View(known, d), View(known, s), path)
      && M.Paired(View(known, d)) && M.Proper(View(known, s)) && M.MeetsMappings(View(known, s), p)
      && At(known, d, p).Some?
    ensures var known := Nodes(d);
      At(known, r, p).Some? && At(known, r, p).value.node == At(known, d, p).value.node
      && (At(known, s, p).None? ==> View(known, At(known, r, p).value) == View(known, At(known, d, p).value))
  {
    var known := Nodes(d);
    FindIsAt(known, d, p);
    FindIsAt(known, s, p);
    FindIsAt(known, r, p);
    M.NodesStay(View(known, d), View(known, s), p, path);
  }
}
