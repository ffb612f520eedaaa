/** YAML nodes as linked objects, shared or even cyclic through aliases, and their deep copy. */
module YamlGraph {
  import opened YamlTree

  class YamlNode {
    var kind: Kind
    var tag: string
    var value: string
    var alias: YamlNode?
    var content: seq<YamlNode?>

    /** A copy of one node that still points to the same nodes. */
    constructor (n: YamlNode)
      ensures kind == n.kind && tag == n.tag && value == n.value && alias == n.alias && content == n.content
    {
      kind, tag, value, alias, content := n.kind, n.tag, n.value, n.alias, n.content;
    }
  }

  type Copies = map<YamlNode, YamlNode>

  /** The copies made so far, shared by all calls of one deep copy. */
  class Memo {
    var copies: Copies

    constructor ()
      ensures copies == map[]
    {
      copies := map[];
    }
  }

  ghost predicate PointsInto(x: YamlNode, graph: set<YamlNode>)
    reads x
  {
    (x.alias == null || x.alias in graph)
    && forall i :: 0 <= i < |x.content| ==> x.content[i] == null || x.content[i] in graph
  }

  /** No pointer leads out of the set. */
  ghost predicate Closed(graph: set<YamlNode>)
    reads graph
  {
    forall x :: x in graph ==> PointsInto(x, graph)
  }

  ghost predicate Covers(f: Copies, x: YamlNode?) {
    x == null || x in f
  }

  ghost function Image(f: Copies, x: YamlNode?): YamlNode?
    requires Covers(f, x)
  {
    if x == null then null else f[x]
  }

  ghost predicate Injective(f: Copies) {
    forall x, y :: x in f && y in f && f[x] == f[y] ==> x == y
  }

  ghost predicate CopiesUpTo(f: Copies, from: seq<YamlNode?>, to: seq<YamlNode?>, n: nat)
    requires n <= |from| == |to|
  {
    forall i :: 0 <= i < n ==> Covers(f, from[i]) && to[i] == Image(f, from[i])
  }

  ghost predicate CopiesContent(f: Copies, from: seq<YamlNode?>, to: seq<YamlNode?>) {
    |to| == |from| && CopiesUpTo(f, from, to, |from|)
  }

  /** The copy of `x` says what `x` says and points to the copies of what `x` points to. */
  ghost predicate Mirrors(f: Copies, x: YamlNode)
    requires x in f
    reads x, f[x]
  {
    var c := f[x];
    c.kind == x.kind && c.tag == x.tag && c.value == x.value
    && Covers(f, x.alias) && c.alias == Image(f, x.alias)
    && CopiesContent(f, x.content, c.content)
  }

  ghost predicate Extends(f: Copies, g: Copies) {
    forall x :: x in f ==> x in g && g[x] == f[x]
  }

  /** Copies were added, all of them new objects. */
  twostate predicate Grew(f: Copies, new g: Copies) {
    Extends(f, g) && forall x :: x in g && x !in f ==> fresh(g[x])
  }

  /** Copies of part of the graph, all complete except those in `pending`. */
  ghost predicate Copying(f: Copies, graph: set<YamlNode>, pending: set<YamlNode>)
    reads graph, f.Values
  {
    f.Keys <= graph && f.Values !! graph && Injective(f) && pending <= f.Keys
    && forall x :: x in f && x !in pending ==> Mirrors(f, x)
  }

  lemma MirrorsInExtension(f: Copies, g: Copies, x: YamlNode)
    requires x in f && Mirrors(f, x) && Extends(f, g)
    ensures Mirrors(g, x)
  {
  }

  /** A new node with its unfinished copy joins the copies. */
  lemma CopyStarted(f: Copies, graph: set<YamlNode>, pending: set<YamlNode>, n: YamlNode, cp: YamlNode)
    requires Copying(f, graph, pending) && n in graph && n !in f
    requires cp !in f.Values && cp !in graph
    ensures Copying(f[n := cp], graph, pending + {n})
  {
    var g := f[n := cp];
    forall x | x in g && x !in pending + {n} ensures Mirrors(g, x) {
      MirrorsInExtension(f, g, x);
    }
  }

  lemma CopyFinished(f: Copies, graph: set<YamlNode>, pending: set<YamlNode>, n: YamlNode)
    requires Copying(f, graph, pending + {n}) && pending <= f.Keys && n in f && Mirrors(f, n)
    ensures Copying(f, graph, pending)
  {
  }

  /** A finished node and its copy are not the copy of the pending node `n`. */
  lemma FinishedIsElsewhere(f: Copies, graph: set<YamlNode>, pending: set<YamlNode>, n: YamlNode)
    requires Copying(f, graph, pending) && n in pending
    ensures forall x :: x in f && x !in pending ==> x != f[n] && f[x] != f[n]
  {
  }

  method SetAlias(cp: YamlNode, alias: YamlNode?, ghost f: Copies, ghost graph: set<YamlNode>,
                  ghost pending: set<YamlNode>, ghost n: YamlNode)
    requires Copying(f, graph, pending) && n in f && n in pending && f[n] == cp
    modifies cp`alias
    ensures cp.alias == alias
    ensures Copying(f, graph, pending)
  {
    FinishedIsElsewhere(f, graph, pending, n);
    cp.alias := alias;
    assert forall x :: x in f && x !in pending ==> Mirrors(f, x);
  }

  method SetContent(cp: YamlNode, content: seq<YamlNode?>, ghost f: Copies, ghost graph: set<YamlNode>,
                    ghost pending: set<YamlNode>, ghost n: YamlNode)
    requires Copying(f, graph, pending) && n in f && n in pending && f[n] == cp
    modifies cp`content
    ensures cp.content == content
    ensures Copying(f, graph, pending)
  {
    FinishedIsElsewhere(f, graph, pending, n);
    cp.content := content;
    assert forall x :: x in f && x !in pending ==> Mirrors(f, x);
  }

  method DeepCopySeen(n: YamlNode?, seen: Memo, ghost graph: set<YamlNode>, ghost pending: set<YamlNode>)
    returns (r: YamlNode?)
    requires Closed(graph) && (n == null || n in graph)
    requires Copying(seen.copies, graph, pending)
    modifies seen
    ensures Copying(seen.copies, graph, pending)
    ensures Grew(old(seen.copies), seen.copies)
    ensures Covers(seen.copies, n) && r == Image(seen.copies, n)
    decreases graph - seen.copies.Keys, 1
  {
    if n == null {
      return null;
    }
    if n in seen.copies {
      return seen.copies[n];
    }
    var cp := new YamlNode(n);
    CopyStarted(seen.copies, graph, pending, n, cp);
    seen.copies := seen.copies[n := cp];
    CopyPointers(n, cp, seen, graph, pending + {n});
    CopyFinished(seen.copies, graph, pending, n);
    r := cp;
  }

  method CopyPointers(n: YamlNode, cp: YamlNode, seen: Memo, ghost graph: set<YamlNode>, ghost pending: set<YamlNode>)
    requires Closed(graph) && n in graph
    requires Copying(seen.copies, graph, pending) && n in pending && seen.copies[n] == cp
    requires cp.kind == n.kind && cp.tag == n.tag && cp.value == n.value
    requires cp.alias == n.alias && cp.content == n.content
    modifies seen, cp
    ensures Copying(seen.copies, graph, pending)
    ensures Grew(old(seen.copies), seen.copies)
    ensures Mirrors(seen.copies, n)
    decreases graph - seen.copies.Keys, 4
  {
    if n.alias != null {
      CopyAlias(n, cp, seen, graph, pending);
    }
    if |n.content| > 0 {
      CopyContent(n, cp, seen, graph, pending);
    }
  }

  method CopyAlias(n: YamlNode, cp: YamlNode, seen: Memo, ghost graph: set<YamlNode>, ghost pending: set<YamlNode>)
    requires Closed(graph) && n in graph && n.alias != null
    requires Copying(seen.copies, graph, pending) && n in pending && seen.copies[n] == cp
    modifies seen, cp
    ensures Copying(seen.copies, graph, pending)
    ensures Grew(old(seen.copies), seen.copies)
    ensures Covers(seen.copies, n.alias) && cp.alias == Image(seen.copies, n.alias)
    ensures unchanged(cp`kind, cp`tag, cp`value, cp`content)
    decreases graph - seen.copies.Keys, 2
  {
    var alias := DeepCopySeen(n.alias, seen, graph, pending);
    SetAlias(cp, alias, seen.copies, graph, pending, n);
  }

  method CopyContent(n: YamlNode, cp: YamlNode, seen: Memo, ghost graph: set<YamlNode>, ghost pending: set<YamlNode>)
    requires Closed(graph) && n in graph
    requires Copying(seen.copies, graph, pending) && n in pending && seen.copies[n] == cp
    modifies seen, cp
    ensures Copying(seen.copies, graph, pending)
    ensures Grew(old(seen.copies), seen.copies)
    ensures CopiesContent(seen.copies, n.content, cp.content)
    ensures unchanged(cp`kind, cp`tag, cp`value, cp`alias)
    decreases graph - seen.copies.Keys, 3
  {
    SetContent(cp, seq(|n.content|, _ => null), seen.copies, graph, pending, n);
    for i := 0 to |n.content|
      invariant Copying(seen.copies, graph, pending)
      invariant Grew(old(seen.copies), seen.copies)
      invariant unchanged(cp`kind, cp`tag, cp`value, cp`alias)
      invariant unchanged(n)
      invariant |cp.content| == |n.content| && CopiesUpTo(seen.copies, n.content, cp.content, i)
    {
      CopyChild(n, cp, i, seen, graph, pending);
    }
  }

  method CopyChild(n: YamlNode, cp: YamlNode, i: nat, seen: Memo, ghost graph: set<YamlNode>,
                   ghost pending: set<YamlNode>)
    requires Closed(graph) && n in graph && i < |n.content| == |cp.content|
    requires Copying(seen.copies, graph, pending) && n in pending && seen.copies[n] == cp
    requires CopiesUpTo(seen.copies, n.content, cp.content, i)
    modifies seen, cp
    ensures Copying(seen.copies, graph, pending)
    ensures Grew(old(seen.copies), seen.copies)
    ensures |cp.content| == |n.content| && CopiesUpTo(seen.copies, n.content, cp.content, i + 1)
    ensures unchanged(cp`kind, cp`tag, cp`value, cp`alias)
    decreases graph - seen.copies.Keys, 2
  {
    var child := DeepCopySeen(n.content[i], seen, graph, pending);
    SetContent(cp, cp.content[i := child], seen.copies, graph, pending, n);
  }

  /** `f` pairs every node it covers with a copy of its own, and nothing points elsewhere. */
  ghost predicate Isomorphism(f: Copies)
    reads f.Keys, f.Values
  {
    Injective(f) && f.Keys !! f.Values && forall x :: x in f ==> Mirrors(f, x)
  }

  /** Copies everything that can be reached from `n`, whatever is shared and wherever aliases lead. */
  method DeepCopy(n: YamlNode?, ghost graph: set<YamlNode>) returns (r: YamlNode?, ghost f: Copies)
    requires Closed(graph) && (n == null || n in graph)
    ensures Isomorphism(f) && f.Keys <= graph && Covers(f, n) && r == Image(f, n)
    ensures forall x :: x in f ==> fresh(f[x])
  {
    var seen := new Memo();
    r := DeepCopySeen(n, seen, graph, {});
    f := seen.copies;
  }

  // ---------------------------------------------------------------- what an isomorphic copy is

  lemma IsomorphismCloses(f: Copies)
    requires Isomorphism(f)
    ensures Closed(f.Keys) && Closed(f.Values)
  {
    forall c | c in f.Values ensures PointsInto(c, f.Values) {
      var x :| x in f && f[x] == c;
      assert Mirrors(f, x);
    }
    forall x | x in f.Keys ensures PointsInto(x, f.Keys) {
      assert Mirrors(f, x);
    }
  }

  datatype Hop = ToAlias | ToChild(index: nat)

  /** The node at the end of a walk along pointers, null when the walk runs out. */
  ghost function Walk(graph: set<YamlNode>, n: YamlNode?, hops: seq<Hop>): (r: YamlNode?)
    requires Closed(graph) && (n == null || n in graph)
    ensures r == null || r in graph
    reads graph
    decreases |hops|
  {
    if n == null || hops == [] then n
    else
      match hops[0]
      case ToAlias => Walk(graph, n.alias, hops[1..])
      case ToChild(i) => Walk(graph, if i < |n.content| then n.content[i] else null, hops[1..])
  }

  /** Every walk in the copy ends at the copy of where the walk ends in the original. */
  lemma {:induction false} WalksAgree(f: Copies, n: YamlNode?, hops: seq<Hop>)
    requires Isomorphism(f) && Covers(f, n)
    ensures Closed(f.Keys) && Closed(f.Values)
    ensures Walk(f.Values, Image(f, n), hops) == Image(f, Walk(f.Keys, n, hops))
    decreases |hops|
  {
    IsomorphismCloses(f);
    if n != null && hops != [] {
      assert Mirrors(f, n);
      match hops[0]
      case ToAlias => WalksAgree(f, n.alias, hops[1..]);
      case ToChild(i) => WalksAgree(f, if i < |n.content| then n.content[i] else null, hops[1..]);
    }
  }

  /** Two walks meet in the copy exactly when they meet in the original; neither meets the other's nodes. */
  lemma {:induction false} SharingIsPreserved(f: Copies, n: YamlNode, a: seq<Hop>, b: seq<Hop>)
    requires Isomorphism(f) && n in f
    ensures Closed(f.Keys) && Closed(f.Values)
    ensures Walk(f.Values, f[n], a) == Walk(f.Values, f[n], b) <==> Walk(f.Keys, n, a) == Walk(f.Keys, n, b)
    ensures Walk(f.Values, f[n], a) != null ==> Walk(f.Values, f[n], a) != Walk(f.Keys, n, b)
  {
    WalksAgree(f, n, a);
    WalksAgree(f, n, b);
  }
}
