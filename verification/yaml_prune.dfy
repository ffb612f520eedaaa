/** Removing the default-valued descendants of a new value, in place. */
module YamlPrune {
  import opened Sequences
  import opened YamlTree
  import opened YamlGraph
  import opened YamlShapes

  // ---------------------------------------------------------------- going through the trees of a list

  /** The first `k` trees of `c` have become `done`, with `nodes` at their tops; the others are as before. */
  ghost predicate Swept(nodes: seq<YamlNode?>, done: seq<Shape>, c: seq<Shape>, k: nat)
    requires k <= |c|
    reads AllNodes(done), AllNodes(c[k..])
  {
    PointTo(nodes, done) && AllHold(done) && AllDistinct(done) && AllNodes(done) <= AllNodes(c[..k])
    && AllHold(c[k..])
  }

  lemma {:induction false} SweepStarts(c: seq<Shape>)
    requires AllHold(c)
    ensures Swept([], [], c, 0)
  {
    assert c[0..] == c;
  }

  lemma {:induction false} SweepNext(nodes: seq<YamlNode?>, done: seq<Shape>, c: seq<Shape>, k: nat)
    requires k < |c| && AllDistinct(c) && Swept(nodes, done, c, k)
    ensures Holds(c[k]) && Distinct(c[k]) && AllHold(c[k + 1..]) && Nodes(c[k]) <= AllNodes(c)
    ensures AllNodes(done) !! Nodes(c[k]) && AllNodes(c[k + 1..]) !! Nodes(c[k])
  {
    assert c[k..] == [c[k]] + c[k + 1..];
    HoldBoth([c[k]], c[k + 1..]);
    assert AllHold([c[k]]) ==> Holds([c[k]][0]);
    Around(c, k);
    DistinctMiddle(c[..k], c[k], c[k + 1..]);
  }

  lemma {:induction false} SweepKeeps(nodes: seq<YamlNode?>, done: seq<Shape>, c: seq<Shape>, k: nat, child: Shape)
    requires k < |c| && AllDistinct(c)
    requires PointTo(nodes, done) && AllHold(done) && AllDistinct(done) && AllNodes(done) <= AllNodes(c[..k])
    requires AllHold(c[k + 1..]) && Holds(child) && Distinct(child) && Nodes(child) <= Nodes(c[k])
    ensures Swept(nodes + [child.node], done + [child], c, k + 1)
  {
    Around(c, k);
    DistinctMiddle(c[..k], c[k], c[k + 1..]);
    DistinctBoth(done, [child]);
    DistinctOne(child);
    NodesOfBoth(done, [child]);
    NodesOfOne(child);
    assert c[..k + 1] == c[..k] + [c[k]];
    NodesOfBoth(c[..k], [c[k]]);
    NodesOfOne(c[k]);
    HoldBoth(done, [child]);
  }

  lemma {:induction false} SweepDrops(nodes: seq<YamlNode?>, done: seq<Shape>, c: seq<Shape>, k: nat, j: nat)
    requires k <= j <= |c|
    requires PointTo(nodes, done) && AllHold(done) && AllDistinct(done) && AllNodes(done) <= AllNodes(c[..k])
    requires AllHold(c[j..])
    ensures Swept(nodes, done, c, j)
  {
    assert c[..j] == c[..k] + c[k..j];
    NodesOfBoth(c[..k], c[k..j]);
  }

  lemma {:induction false} SweepEnds(nodes: seq<YamlNode?>, done: seq<Shape>, c: seq<Shape>, k: nat)
    requires k <= |c| && Swept(nodes, done, c, k)
    ensures PointTo(nodes, done) && AllHold(done) && AllDistinct(done) && AllNodes(done) <= AllNodes(c)
  {
    assert c == c[..k] + c[k..];
    NodesOfBoth(c[..k], c[k..]);
  }

  // ---------------------------------------------------------------- pruning a new value

  method Prune(path: seq<string>, n: YamlNode, ghost known: set<YamlNode>, ghost s: Shape) returns (ghost r: Shape)
    requires Holds(s) && Distinct(s) && s.node == n
    modifies Nodes(s)
    ensures Holds(r) && Distinct(r) && r.node == n && Nodes(r) <= Nodes(s)
    ensures View(known, r) == YamlTree.Prune(path, View(known, s))
    decreases s, 3
  {
    match n.kind {
      case Mapping =>
        r := PrunePairs(path, n, known, s);
      case Sequence =>
        r := PruneElements(path, n, known, s);
      case _ =>
        r := s;
    }
  }

  method PrunePairs(path: seq<string>, n: YamlNode, ghost known: set<YamlNode>, ghost s: Shape) returns (ghost r: Shape)
    requires Holds(s) && Distinct(s) && s.node == n && s.kind == Mapping
    modifies Nodes(s)
    ensures Holds(r) && Distinct(r) && r.node == n && Nodes(r) <= Nodes(s)
    ensures View(known, r) == YamlTree.Prune(path, View(known, s))
    decreases s, 2
  {
    var filtered: seq<YamlNode?> := [];
    ghost var kept: seq<Shape> := [];
    SweepStarts(s.content);
    for m := 0 to |n.content| / 2
      invariant PointTo(n.content, s.content) && PruningPairs(path, known, s, filtered, kept, m)
    {
      filtered, kept := PrunePair(path, n, m, filtered, known, s, kept);
    }
    r := FilterContent(path, n, filtered, known, s, kept);
  }

  method FilterContent(path: seq<string>, n: YamlNode, filtered: seq<YamlNode?>, ghost known: set<YamlNode>,
                       ghost s: Shape, ghost kept: seq<Shape>)
    returns (ghost r: Shape)
    requires Distinct(s) && s.node == n && s.kind == Mapping
    requires PruningPairs(path, known, s, filtered, kept, |s.content| / 2)
    modifies n`content
    ensures Holds(r) && Distinct(r) && r.node == n && Nodes(r) <= Nodes(s)
    ensures View(known, r) == YamlTree.Prune(path, View(known, s))
  {
    SweepEnds(filtered, kept, s.content, 2 * (|s.content| / 2));
    SetContent(n, filtered, kept);
    r := s.(content := kept);
  }

  method SetContent(n: YamlNode, content: seq<YamlNode?>, ghost c: seq<Shape>)
    requires AllHold(c) && n !in AllNodes(c)
    modifies n`content
    ensures n.content == content && AllHold(c)
  {
    n.content := content;
  }

  ghost predicate PruningPairs(path: seq<string>, known: set<YamlNode>, s: Shape, filtered: seq<YamlNode?>,
                               kept: seq<Shape>, m: nat)
    reads s.node, AllNodes(kept), if 2 * m <= |s.content| then AllNodes(s.content[2 * m..]) else {}
  {
    2 * m <= |s.content| && Labelled(s) && PointTo(s.node.content, s.content)
    && Swept(filtered, kept, s.content, 2 * m)
    && PairsPrunedSoFar(path, View(known, s), m, ViewAll(known, kept))
  }

  ghost predicate PairsPrunedSoFar(path: seq<string>, v: Node, m: nat, kept: seq<Node>) {
    m <= Pairs(v.content)
    && YamlTree.PrunePairs(path, v, 0) == kept + YamlTree.PrunePairs(path, v, m)
  }

  lemma {:induction false} PairsPrunedOneMore(path: seq<string>, v: Node, m: nat, kept: seq<Node>, more: seq<Node>)
    requires m < Pairs(v.content) && PairsPrunedSoFar(path, v, m, kept)
    requires var key, value := v.content[2 * m], v.content[2 * m + 1];
      var below := path + [key.value];
      more == if KnownDefault(below, value) || EmptyCollection(YamlTree.Prune(below, value)) then []
              else [key, YamlTree.Prune(below, value)]
    ensures PairsPrunedSoFar(path, v, m + 1, kept + more)
  {
    Associative(kept, more, YamlTree.PrunePairs(path, v, m + 1));
  }

  lemma {:induction false} PairDropped(path: seq<string>, known: set<YamlNode>, s: Shape,
                                       filtered: seq<YamlNode?>, kept: seq<Shape>, m: nat)
    requires 2 * m + 1 < |s.content| && Labelled(s) && PointTo(s.node.content, s.content)
    requires PointTo(filtered, kept) && AllHold(kept) && AllDistinct(kept)
    requires AllNodes(kept) <= AllNodes(s.content[..2 * m])
    requires AllHold(s.content[2 * m + 2..])
    requires PairsPrunedSoFar(path, View(known, s), m, ViewAll(known, kept))
    requires var value := View(known, s.content[2 * m + 1]);
      var below := path + [s.content[2 * m].value];
      KnownDefault(below, value) || EmptyCollection(YamlTree.Prune(below, value))
    ensures PruningPairs(path, known, s, filtered, kept, m + 1)
  {
    SweepDrops(filtered, kept, s.content, 2 * m, 2 * m + 2);
    PairsPrunedOneMore(path, View(known, s), m, ViewAll(known, kept), []);
    assert ViewAll(known, kept) + [] == ViewAll(known, kept);
  }

  lemma {:induction false} PairKept(path: seq<string>, known: set<YamlNode>, s: Shape, filtered: seq<YamlNode?>,
                                    kept: seq<Shape>, m: nat, child: Shape)
    requires 2 * m + 1 < |s.content| && Labelled(s) && PointTo(s.node.content, s.content) && Distinct(s)
    requires PointTo(filtered, kept) && AllHold(kept) && AllDistinct(kept)
    requires AllNodes(kept) <= AllNodes(s.content[..2 * m])
    requires Holds(s.content[2 * m]) && AllHold(s.content[2 * m + 2..])
    requires Holds(child) && Distinct(child)
    requires Nodes(child) <= Nodes(s.content[2 * m + 1]) && child.node == s.content[2 * m + 1].node
    requires PairsPrunedSoFar(path, View(known, s), m, ViewAll(known, kept))
    requires var value := View(known, s.content[2 * m + 1]);
      var below := path + [s.content[2 * m].value];
      View(known, child) == YamlTree.Prune(below, value)
      && !KnownDefault(below, value) && !EmptyCollection(View(known, child))
    ensures PruningPairs(path, known, s, filtered + [s.content[2 * m].node, child.node],
                         kept + [s.content[2 * m], child], m + 1)
  {
    var key := s.content[2 * m];
    PairSwept(filtered, kept, s.content, 2 * m, child);
    PairsPrunedOneMore(path, View(known, s), m, ViewAll(known, kept), [View(known, key), View(known, child)]);
    ViewBoth(known, kept, [key, child]);
    assert ViewAll(known, [key, child]) == [View(known, key), View(known, child)];
  }

  lemma {:induction false} PairSwept(nodes: seq<YamlNode?>, done: seq<Shape>, c: seq<Shape>, k: nat, child: Shape)
    requires k + 1 < |c| && AllDistinct(c)
    requires PointTo(nodes, done) && AllHold(done) && AllDistinct(done) && AllNodes(done) <= AllNodes(c[..k])
    requires Holds(c[k]) && AllHold(c[k + 2..]) && Holds(child) && Distinct(child) && Nodes(child) <= Nodes(c[k + 1])
    ensures Swept(nodes + [c[k].node, child.node], done + [c[k], child], c, k + 2)
  {
    DoneWithOneMore(nodes, done, c, k);
    SweepKeeps(nodes + [c[k].node], done + [c[k]], c, k + 1, child);
    assert nodes + [c[k].node] + [child.node] == nodes + [c[k].node, child.node];
    assert done + [c[k]] + [child] == done + [c[k], child];
  }

  lemma {:induction false} DoneWithOneMore(nodes: seq<YamlNode?>, done: seq<Shape>, c: seq<Shape>, k: nat)
    requires k < |c| && AllDistinct(c)
    requires PointTo(nodes, done) && AllHold(done) && AllDistinct(done) && AllNodes(done) <= AllNodes(c[..k])
    requires Holds(c[k])
    ensures var nodes, done := nodes + [c[k].node], done + [c[k]];
      PointTo(nodes, done) && AllHold(done) && AllDistinct(done) && AllNodes(done) <= AllNodes(c[..k + 1])
  {
    Around(c, k);
    DistinctMiddle(c[..k], c[k], c[k + 1..]);
    DistinctBoth(done, [c[k]]);
    DistinctOne(c[k]);
    NodesOfBoth(done, [c[k]]);
    NodesOfOne(c[k]);
    assert c[..k + 1] == c[..k] + [c[k]];
    NodesOfBoth(c[..k], [c[k]]);
    HoldBoth(done, [c[k]]);
  }

  method PrunePair(path: seq<string>, n: YamlNode, m: nat, filtered: seq<YamlNode?>,
                   ghost known: set<YamlNode>, ghost s: Shape, ghost kept: seq<Shape>)
    returns (now: seq<YamlNode?>, ghost done: seq<Shape>)
    requires Distinct(s) && s.node == n && 2 * m + 1 < |n.content| && PruningPairs(path, known, s, filtered, kept, m)
    modifies Nodes(s)
    ensures PruningPairs(path, known, s, now, done, m + 1) && n.content == old(n.content)
    decreases s, 1
  {
    ghost var c := s.content;
    PairNext(filtered, kept, c, 2 * m);
    var key, value := n.content[2 * m], n.content[2 * m + 1];
    var below := path + [key.value];
    ViewsAreAlike(known, c[2 * m + 1]);
    DefaultAlike(below, View({}, c[2 * m + 1]), View(known, c[2 * m + 1]));
    if KnownDefault(below, Value(value, c[2 * m + 1])) {
      PairDropped(path, known, s, filtered, kept, m);
      return filtered, kept;
    }
    now, done := PruneValue(path, n, m, filtered, known, s, kept);
  }

  method PruneValue(path: seq<string>, n: YamlNode, m: nat, filtered: seq<YamlNode?>,
                    ghost known: set<YamlNode>, ghost s: Shape, ghost kept: seq<Shape>)
    returns (now: seq<YamlNode?>, ghost done: seq<Shape>)
    requires Distinct(s) && s.node == n && 2 * m + 1 < |n.content| && PruningPairs(path, known, s, filtered, kept, m)
    requires !KnownDefault(path + [s.content[2 * m].value], View(known, s.content[2 * m + 1]))
    modifies Nodes(s)
    ensures PruningPairs(path, known, s, now, done, m + 1) && n.content == old(n.content)
    decreases s, 0
  {
    ghost var c := s.content;
    PairNext(filtered, kept, c, 2 * m);
    var key, value := n.content[2 * m], n.content[2 * m + 1];
    ghost var child := PruneChild(path + [key.value], value, known, s, kept + [c[2 * m]], c[2 * m + 1], c[2 * m + 2..]);
    KeyHolds(kept, c[2 * m]);
    if (value.kind == Mapping || value.kind == Sequence) && |value.content| == 0 {
      PairDropped(path, known, s, filtered, kept, m);
      now, done := filtered, kept;
    } else {
      PairKept(path, known, s, filtered, kept, m, child);
      now, done := filtered + [key, value], kept + [c[2 * m], child];
    }
  }

  lemma {:induction false} KeyHolds(kept: seq<Shape>, key: Shape)
    requires AllHold(kept + [key])
    ensures AllHold(kept) && Holds(key)
  {
    HoldBoth(kept, [key]);
    assert [key][0] == key;
  }

  lemma {:induction false} PairNext(nodes: seq<YamlNode?>, done: seq<Shape>, c: seq<Shape>, k: nat)
    requires k + 1 < |c| && AllDistinct(c) && Swept(nodes, done, c, k)
    ensures Holds(c[k]) && Holds(c[k + 1]) && Distinct(c[k + 1]) && AllHold(c[k + 2..]) && AllHold(done + [c[k]])
    ensures AllNodes(done + [c[k]]) !! Nodes(c[k + 1]) && AllNodes(c[k + 2..]) !! Nodes(c[k + 1])
  {
    SweepNext(nodes, done, c, k);
    SweepKeeps(nodes, done, c, k, c[k]);
    SweepNext(nodes + [c[k].node], done + [c[k]], c, k + 1);
  }

  method PruneElements(path: seq<string>, n: YamlNode, ghost known: set<YamlNode>, ghost s: Shape)
    returns (ghost r: Shape)
    requires Holds(s) && Distinct(s) && s.node == n && s.kind == Sequence
    modifies Nodes(s)
    ensures Holds(r) && Distinct(r) && r.node == n && Nodes(r) <= Nodes(s)
    ensures View(known, r) == YamlTree.Prune(path, View(known, s))
    decreases s, 1
  {
    ghost var done: seq<Shape> := [];
    SweepStarts(s.content);
    for i := 0 to |n.content|
      invariant i <= |s.content| && PruningElements(path, known, s, done, i)
    {
      done := PruneElement(path, n, i, known, s, done);
    }
    assert n.content[..|n.content|] == n.content;
    SweepEnds(n.content, done, s.content, |n.content|);
    r := s.(content := done);
  }

  ghost predicate PruningElements(path: seq<string>, known: set<YamlNode>, s: Shape, done: seq<Shape>, i: nat)
    requires i <= |s.content|
    reads s.node, AllNodes(done), AllNodes(s.content[i..])
  {
    Labelled(s) && PointTo(s.node.content, s.content) && Swept(s.node.content[..i], done, s.content, i)
    && PrunedSoFar(path, View(known, s), i, ViewAll(known, done))
  }

  method PruneElement(path: seq<string>, n: YamlNode, i: nat, ghost known: set<YamlNode>, ghost s: Shape,
                      ghost done: seq<Shape>)
    returns (ghost now: seq<Shape>)
    requires Distinct(s) && s.node == n && i < |s.content| && PruningElements(path, known, s, done, i)
    modifies Nodes(s)
    ensures PruningElements(path, known, s, now, i + 1)
    decreases s, 0
  {
    ghost var c := s.content;
    ghost var nodes := n.content[..i];
    SweepNext(nodes, done, c, i);
    ghost var child := PruneChild(path, n.content[i], known, s, done, c[i], c[i + 1..]);
    now := done + [child];
    ElementPruned(path, known, s, done, i, child);
  }

  lemma {:induction false} ElementPruned(path: seq<string>, known: set<YamlNode>, s: Shape, done: seq<Shape>,
                                         i: nat, child: Shape)
    requires Distinct(s) && i < |s.content| && Labelled(s) && PointTo(s.node.content, s.content)
    requires PointTo(s.node.content[..i], done) && AllHold(done) && AllDistinct(done)
    requires AllNodes(done) <= AllNodes(s.content[..i])
    requires AllHold(s.content[i + 1..]) && Holds(child) && Distinct(child) && Nodes(child) <= Nodes(s.content[i])
    requires child.node == s.content[i].node && View(known, child) == YamlTree.Prune(path, View(known, s.content[i]))
    requires PrunedSoFar(path, View(known, s), i, ViewAll(known, done))
    ensures PruningElements(path, known, s, done + [child], i + 1)
  {
    SweepKeeps(s.node.content[..i], done, s.content, i, child);
    assert s.node.content[..i + 1] == s.node.content[..i] + [child.node];
    PruneOneMore(path, View(known, s), i, ViewAll(known, done), View(known, child));
    ViewBoth(known, done, [child]);
    assert ViewAll(known, [child]) == [View(known, child)];
  }

  ghost predicate PrunedSoFar(path: seq<string>, v: Node, i: nat, done: seq<Node>)
    requires i <= |v.content|
  {
    YamlTree.PruneElements(path, v, 0) == done + YamlTree.PruneElements(path, v, i)
  }

  lemma {:induction false} PruneOneMore(path: seq<string>, v: Node, i: nat, done: seq<Node>, next: Node)
    requires i < |v.content| && PrunedSoFar(path, v, i, done) && next == YamlTree.Prune(path, v.content[i])
    ensures PrunedSoFar(path, v, i + 1, done + [next])
  {
    Associative(done, [next], YamlTree.PruneElements(path, v, i + 1));
  }

  /** Prunes one child and leaves its parent, the trees already done and the remaining ones alone. */
  method PruneChild(path: seq<string>, n: YamlNode, ghost known: set<YamlNode>,
                    ghost parent: Shape, ghost done: seq<Shape>, ghost s: Shape, ghost rest: seq<Shape>)
    returns (ghost r: Shape)
    requires Holds(s) && Distinct(s) && s.node == n
    requires Labelled(parent) && AllHold(done) && AllHold(rest)
    requires parent.node !in Nodes(s) && AllNodes(done) !! Nodes(s) && AllNodes(rest) !! Nodes(s)
    modifies Nodes(s)
    ensures Holds(r) && Distinct(r) && r.node == n && Nodes(r) <= Nodes(s)
    ensures View(known, r) == YamlTree.Prune(path, View(known, s))
    ensures unchanged(parent.node) && AllHold(done) && AllHold(rest)
    decreases s, 4
  {
    assert allocated(AllNodes(done)) && allocated(AllNodes(rest));
    r := Prune(path, n, known, s);
  }
}
