/** Trees of nodes as they stand in memory, and their values. */
module YamlShapes {
  import opened YamlTree
  import opened YamlGraph

  /** What a tree of nodes holds at some moment, node by node. */
  datatype Shape = Shape(node: YamlNode, kind: Kind, tag: string, value: string, content: seq<Shape>)

  ghost function Nodes(s: Shape): set<YamlNode> {
    {s.node} + AllNodes(s.content)
  }

  ghost function AllNodes(c: seq<Shape>): set<YamlNode> {
    set i, x | 0 <= i < |c| && x in Nodes(c[i]) :: x
  }

  /** No node occurs twice. */
  ghost predicate Distinct(s: Shape) {
    s.node !in AllNodes(s.content) && AllDistinct(s.content)
  }

  ghost predicate AllDistinct(c: seq<Shape>) {
    (forall i :: 0 <= i < |c| ==> Distinct(c[i]))
    && forall i, j :: 0 <= i < j < |c| ==> Nodes(c[i]) !! Nodes(c[j])
  }

  ghost predicate PointTo(nodes: seq<YamlNode?>, c: seq<Shape>) {
    |nodes| == |c| && forall i :: 0 <= i < |c| ==> nodes[i] == c[i].node
  }

  ghost predicate Labelled(s: Shape)
    reads s.node
  {
    s.node.kind == s.kind && s.node.tag == s.tag && s.node.value == s.value && s.node.alias == null
  }

  /** The nodes have this shape now. */
  ghost predicate Holds(s: Shape)
    reads Nodes(s)
  {
    Labelled(s) && PointTo(s.node.content, s.content) && AllHold(s.content)
  }

  ghost predicate AllHold(c: seq<Shape>)
    reads AllNodes(c)
  {
    forall i :: 0 <= i < |c| ==> Holds(c[i])
  }

  /** The value of a tree; only `known` nodes, those of the user's file, are told apart. */
  ghost function View(known: set<YamlNode>, s: Shape): Node {
    Node(if s.node in known then s.node else null, s.kind, s.tag, s.value, ViewAll(known, s.content))
  }

  ghost function ViewAll(known: set<YamlNode>, c: seq<Shape>): (r: seq<Node>)
    ensures |r| == |c| && forall i :: 0 <= i < |c| ==> r[i] == View(known, c[i])
  {
    seq(|c|, i requires 0 <= i < |c| => View(known, c[i]))
  }

  // ---------------------------------------------------------------- lists of trees

  lemma {:induction false} NodesOfOne(s: Shape)
    ensures AllNodes([s]) == Nodes(s)
  {
    assert forall x :: x in Nodes(s) ==> x in Nodes([s][0]);
  }

  lemma {:induction false} NodesOfBoth(a: seq<Shape>, b: seq<Shape>)
    ensures AllNodes(a + b) == AllNodes(a) + AllNodes(b)
  {
    forall x | x in AllNodes(a) ensures x in AllNodes(a + b) {
      var i :| 0 <= i < |a| && x in Nodes(a[i]);
      assert x in Nodes((a + b)[i]);
    }
    forall x | x in AllNodes(b) ensures x in AllNodes(a + b) {
      var i :| 0 <= i < |b| && x in Nodes(b[i]);
      assert x in Nodes((a + b)[|a| + i]);
    }
  }

  lemma {:induction false} DistinctBoth(a: seq<Shape>, b: seq<Shape>)
    ensures AllDistinct(a + b) <==> AllDistinct(a) && AllDistinct(b) && AllNodes(a) !! AllNodes(b)
  {
    var c := a + b;
    if AllDistinct(c) {
      assert forall i :: 0 <= i < |a| ==> c[i] == a[i];
      assert forall i :: 0 <= i < |b| ==> c[|a| + i] == b[i];
      forall i, j | 0 <= i < |a| && 0 <= j < |b| ensures Nodes(a[i]) !! Nodes(b[j]) {
        assert Nodes(c[i]) !! Nodes(c[|a| + j]);
      }
    }
    if AllDistinct(a) && AllDistinct(b) && AllNodes(a) !! AllNodes(b) {
      forall i, j | 0 <= i < j < |c| ensures Nodes(c[i]) !! Nodes(c[j]) {
        if i < |a| <= j {
          assert Nodes(a[i]) <= AllNodes(a) && Nodes(b[j - |a|]) <= AllNodes(b);
        }
      }
    }
  }

  lemma {:induction false} HoldBoth(a: seq<Shape>, b: seq<Shape>)
    ensures AllHold(a + b) <==> AllHold(a) && AllHold(b)
  {
    var c := a + b;
    assert forall i :: 0 <= i < |a| ==> c[i] == a[i];
    assert forall i :: 0 <= i < |b| ==> c[|a| + i] == b[i];
  }

  lemma {:induction false} ViewBoth(known: set<YamlNode>, a: seq<Shape>, b: seq<Shape>)
    ensures ViewAll(known, a + b) == ViewAll(known, a) + ViewAll(known, b)
  {
  }

  lemma {:induction false} DistinctOne(s: Shape)
    ensures AllDistinct([s]) <==> Distinct(s)
  {
    assert [s][0] == s;
  }

  /** A list with its k-th tree in the middle. */
  lemma {:induction false} Around<T>(c: seq<T>, k: nat)
    requires k < |c|
    ensures c == c[..k] + ([c[k]] + c[k + 1..])
  {
  }

  lemma {:induction false} NodesMiddle(a: seq<Shape>, s: Shape, b: seq<Shape>)
    ensures AllNodes(a + ([s] + b)) == AllNodes(a) + (Nodes(s) + AllNodes(b))
  {
    NodesOfBoth(a, [s] + b);
    NodesOfBoth([s], b);
    NodesOfOne(s);
  }

  lemma {:induction false} DistinctMiddle(a: seq<Shape>, s: Shape, b: seq<Shape>)
    ensures AllDistinct(a + ([s] + b)) <==>
      AllDistinct(a) && Distinct(s) && AllDistinct(b)
      && AllNodes(a) !! (Nodes(s) + AllNodes(b)) && Nodes(s) !! AllNodes(b)
  {
    DistinctBoth(a, [s] + b);
    DistinctBoth([s], b);
    NodesOfBoth([s], b);
    NodesOfOne(s);
    DistinctOne(s);
  }

  // ---------------------------------------------------------------- copying a tree

  lemma {:induction false} TreesAreClosed(s: Shape)
    requires Holds(s)
    ensures Closed(Nodes(s))
  {
    forall x | x in Nodes(s) ensures PointsInto(x, Nodes(s)) {
      if x == s.node {
        forall i | 0 <= i < |x.content| ensures x.content[i] in Nodes(s) {
          assert s.content[i].node in Nodes(s.content[i]);
        }
      } else {
        assert x in AllNodes(s.content);
        var i :| 0 <= i < |s.content| && x in Nodes(s.content[i]);
        TreesAreClosed(s.content[i]);
        assert Nodes(s.content[i]) <= Nodes(s);
      }
    }
  }

  lemma {:induction false} CopyCovers(f: Copies, s: Shape)
    requires Holds(s) && Isomorphism(f) && s.node in f
    ensures Nodes(s) <= f.Keys
  {
    assert Mirrors(f, s.node);
    forall i | 0 <= i < |s.content| ensures Nodes(s.content[i]) <= f.Keys {
      assert Covers(f, s.node.content[i]);
      CopyCovers(f, s.content[i]);
    }
  }

  ghost function Copied(f: Copies, s: Shape): Shape
    requires Nodes(s) <= f.Keys
  {
    assert forall i :: 0 <= i < |s.content| ==> Nodes(s.content[i]) <= Nodes(s);
    Shape(f[s.node], s.kind, s.tag, s.value,
          seq(|s.content|, i requires 0 <= i < |s.content| => Copied(f, s.content[i])))
  }

  lemma {:induction false} CopiedNodes(f: Copies, s: Shape)
    requires Nodes(s) <= f.Keys && Injective(f)
    ensures forall x :: x in f ==> (f[x] in Nodes(Copied(f, s)) <==> x in Nodes(s))
    ensures Nodes(Copied(f, s)) <= f.Values
  {
    var r := Copied(f, s);
    forall i | 0 <= i < |s.content|
      ensures Nodes(s.content[i]) <= f.Keys && r.content[i] == Copied(f, s.content[i])
      ensures forall x :: x in f ==> (f[x] in Nodes(r.content[i]) <==> x in Nodes(s.content[i]))
      ensures Nodes(r.content[i]) <= f.Values
    {
      assert Nodes(s.content[i]) <= Nodes(s);
      CopiedNodes(f, s.content[i]);
    }
  }

  lemma {:induction false} CopyIsDistinct(f: Copies, s: Shape)
    requires Nodes(s) <= f.Keys && Injective(f) && Distinct(s)
    ensures Distinct(Copied(f, s))
  {
    var r := Copied(f, s);
    forall i | 0 <= i < |s.content| ensures Distinct(r.content[i]) && r.node !in Nodes(r.content[i]) {
      assert Nodes(s.content[i]) <= Nodes(s);
      CopyIsDistinct(f, s.content[i]);
      CopiedNodes(f, s.content[i]);
    }
    forall i, j | 0 <= i < j < |s.content| ensures Nodes(r.content[i]) !! Nodes(r.content[j]) {
      assert Nodes(s.content[i]) <= Nodes(s) && Nodes(s.content[j]) <= Nodes(s);
      CopiedNodes(f, s.content[i]);
      CopiedNodes(f, s.content[j]);
      forall c | c in Nodes(r.content[i]) ensures c !in Nodes(r.content[j]) {
        var x :| x in f && f[x] == c;
        assert x in Nodes(s.content[i]);
      }
    }
  }

  lemma {:induction false} CopyHolds(f: Copies, s: Shape)
    requires Holds(s) && Isomorphism(f) && Nodes(s) <= f.Keys
    ensures Holds(Copied(f, s))
  {
    var r := Copied(f, s);
    assert Mirrors(f, s.node);
    forall i | 0 <= i < |s.content| ensures Holds(r.content[i]) && r.node.content[i] == r.content[i].node {
      assert Nodes(s.content[i]) <= Nodes(s);
      CopyHolds(f, s.content[i]);
    }
  }

  lemma {:induction false} CopyViews(known: set<YamlNode>, f: Copies, s: Shape)
    requires Nodes(s) <= f.Keys && Nodes(s) !! known && f.Values !! known
    ensures View(known, Copied(f, s)) == View(known, s)
  {
    var r := Copied(f, s);
    forall i | 0 <= i < |s.content| ensures View(known, r.content[i]) == View(known, s.content[i]) {
      assert Nodes(s.content[i]) <= Nodes(s);
      CopyViews(known, f, s.content[i]);
    }
    assert ViewAll(known, r.content) == ViewAll(known, s.content);
  }

  lemma {:induction false} CopiedTree(known: set<YamlNode>, f: Copies, s: Shape)
    requires Holds(s) && Distinct(s) && Nodes(s) !! known
    requires Isomorphism(f) && s.node in f && f.Values !! known
    ensures Nodes(s) <= f.Keys
    ensures var copy := Copied(f, s);
      Nodes(copy) <= f.Values && Holds(copy) && Distinct(copy) && copy.node == f[s.node]
      && View(known, copy) == View(known, s)
  {
    CopyCovers(f, s);
    CopiedNodes(f, s);
    CopyIsDistinct(f, s);
    CopyHolds(f, s);
    CopyViews(known, f, s);
  }

  method CopyTree(n: YamlNode, ghost known: set<YamlNode>, ghost s: Shape) returns (r: YamlNode, ghost copy: Shape)
    requires Holds(s) && Distinct(s) && s.node == n && Nodes(s) !! known
    ensures fresh(Nodes(copy))
    ensures Holds(copy) && Distinct(copy) && copy.node == r && View(known, copy) == View(known, s)
  {
    assert allocated(Nodes(s));
    TreesAreClosed(s);
    var c, f := DeepCopy(n, Nodes(s));
    CopiedTree(known, f, s);
    copy := Copied(f, s);
    r := c;
  }

  // ---------------------------------------------------------------- reading a tree

  function Value(n: YamlNode, ghost s: Shape): (r: Node)
    requires Holds(s) && s.node == n
    reads Nodes(s)
    ensures r == View({}, s)
    decreases s
  {
    Node(null, n.kind, n.tag, n.value, Values(n.content, s.content, 0))
  }

  /** The values of the trees from the i-th on. */
  function Values(nodes: seq<YamlNode?>, ghost c: seq<Shape>, i: nat): (r: seq<Node>)
    requires AllHold(c) && PointTo(nodes, c) && i <= |c|
    reads AllNodes(c)
    ensures r == ViewAll({}, c)[i..]
    decreases c, |c| - i
  {
    if i == |nodes| then []
    else
      assert Nodes(c[i]) <= AllNodes(c);
      [Value(nodes[i], c[i])] + Values(nodes, c, i + 1)
  }

  lemma {:induction false} ViewsAreAlike(known: set<YamlNode>, s: Shape)
    ensures Alike(View({}, s), View(known, s))
  {
    forall i | 0 <= i < |s.content| ensures Alike(View({}, s.content[i]), View(known, s.content[i])) {
      ViewsAreAlike(known, s.content[i]);
    }
  }
}
