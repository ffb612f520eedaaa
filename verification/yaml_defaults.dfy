/** Which generated settings are written when the user's mapping has no such key: by the text of a
    scalar, and for lists and mappings by the scalars they hold. */
module YamlDefaults {
  import opened Wrappers
  import opened YamlTree
  import opened YamlMerge

  /** The names of a path are joined by dots. */
  lemma {:induction false} JoinDots(path: seq<string>, k: string)
    ensures Join([k]) == k
    ensures path != [] ==> Join(path + [k]) == Join(path) + "." + k
    decreases |path|
  {
    if |path| > 1 {
      JoinDots(path[1..], k);
      assert (path + [k])[1..] == path[1..] + [k];
    }
  }

  /** A generated scalar under a key the user's mapping lacks is left out exactly when it is a zero of its
      type or one of the five documented defaults. */
  lemma NewScalarReads(dst: Node, src: Node, k: string, v: Node, path: seq<string>)
    requires Paired(dst) && dst.kind == Mapping && Child(dst, Key(k)).None?
    requires Proper(src) && Child(src, Key(k)) == Some(v) && v.kind == Scalar
    ensures Read(Merge(dst, src, path), [Key(k)]) ==
      if || (v.tag == "!!bool" && v.value == "false")
         || ((v.tag == "!!int" || v.tag == "!!float") && (v.value == "0" || v.value == "0.0"))
         || (v.tag == "!!str" && v.value == "")
         || v.tag == "!!null"
         || (v.tag == "!!str" && Join(path + [k]) == "pprof.addr" && v.value == "127.0.0.1:8316")
         || (v.tag == "!!str" && Join(path + [k]) == "remote-management.panel-github-repository"
             && v.value == "https://github.com/router-for-me/Cli-Proxy-API-Management-Center")
         || (v.tag == "!!str" && Join(path + [k]) == "plugins.dir" && v.value == "plugins")
         || (v.tag == "!!str" && Join(path + [k]) == "routing.strategy" && v.value == "round-robin")
         || (v.tag == "!!int" && Join(path + [k]) == "error-logs-max-files" && v.value == "10")
      then Nothing else Text(v.tag, v.value)
  {
    MergedField(dst, src, path, k);
    ChildReads(Merge(dst, src, path), Key(k));
    assert Prune(path + [k], v) == v && Says(v) == Text(v.tag, v.value);
    assert Read(Merge(dst, src, path), [Key(k)]) ==
      if KnownDefault(path + [k], v) then Nothing else Text(v.tag, v.value);
    assert path + [k] != [];
  }

  lemma ChildReads(n: Node, step: Step)
    ensures Read(n, [step]) == match Child(n, step) case None => Nothing case Some(child) => Says(child)
  {
    ReadBelow(n, step, []);
    assert [step] + [] == [step];
  }

  /** What a scalar, a list or a mapping of the generated tree makes of the node it is merged into. */
  lemma MergedNodeSays(dst: Node, src: Node, path: seq<string>)
    requires Proper(src)
    ensures Says(Merge(dst, src, path)) ==
      if src.kind == Scalar then Text(src.tag, src.value)
      else if src.kind == Mapping then Fields
      else if |src.content| == 0 && dst.kind == Scalar && dst.tag == "!!null" then Text("!!null", dst.value)
      else Elements(|src.content|)
  {
  }

  /** The zeros of their types. */
  predicate ZeroText(leaf: Node) {
    || (leaf.tag == "!!bool" && leaf.value == "false")
    || ((leaf.tag == "!!int" || leaf.tag == "!!float") && (leaf.value == "0" || leaf.value == "0.0"))
    || (leaf.tag == "!!str" && leaf.value == "")
    || leaf.tag == "!!null"
  }

  /** A scalar that is not worth writing: a zero, or, directly under a key, one of the defaults. */
  predicate Gone(names: seq<string>, keyed: bool, leaf: Node) {
    || ZeroText(leaf)
    || (keyed && leaf.tag == "!!str" && DefaultText(Join(names)) == Some(leaf.value))
    || (keyed && leaf.tag == "!!int" && Join(names) == "error-logs-max-files" && leaf.value == "10")
  }

  /** The keys along a path. */
  function Names(path: seq<string>, p: seq<Step>): seq<string>
    decreases |p|
  {
    if p == [] then path else Names(if p[0].Key? then path + [p[0].key] else path, p[1..])
  }

  predicate IsLeaf(n: Node, p: seq<Step>) {
    Find(n, p).Some? && Find(n, p).value.kind == Scalar
  }

  /** The scalar at `p` of a value is not worth writing; `keyed` says that the value itself stands
      under a key. */
  predicate GoneAt(path: seq<string>, keyed: bool, n: Node, p: seq<Step>)
    requires IsLeaf(n, p)
  {
    Gone(Names(path, p), if p == [] then keyed else p[|p| - 1].Key?, Find(n, p).value)
  }

  ghost predicate AllGone(path: seq<string>, keyed: bool, n: Node) {
    forall p :: IsLeaf(n, p) ==> GoneAt(path, keyed, n, p)
  }

  ghost predicate ChildrenGone(path: seq<string>, n: Node) {
    forall step :: Child(n, step).Some? ==> AllGone(Below(path, step), step.Key?, Child(n, step).value)
  }

  function Below(path: seq<string>, step: Step): seq<string> {
    if step.Key? then path + [step.key] else path
  }

  lemma LeafBelow(path: seq<string>, keyed: bool, n: Node, step: Step, p: seq<Step>)
    requires Child(n, step).Some?
    ensures IsLeaf(n, [step] + p) <==> IsLeaf(Child(n, step).value, p)
    ensures IsLeaf(n, [step] + p) ==>
      (GoneAt(path, keyed, n, [step] + p) <==> GoneAt(Below(path, step), step.Key?, Child(n, step).value, p))
  {
    var q := [step] + p;
    assert q[1..] == p;
    if p != [] {
      assert q[|q| - 1] == p[|p| - 1];
    }
  }

  lemma GoneByChild(path: seq<string>, keyed: bool, n: Node)
    requires n.kind != Scalar
    ensures AllGone(path, keyed, n) <==> ChildrenGone(path, n)
  {
    if AllGone(path, keyed, n) {
      forall step, p | Child(n, step).Some? && IsLeaf(Child(n, step).value, p)
        ensures GoneAt(Below(path, step), step.Key?, Child(n, step).value, p)
      {
        LeafBelow(path, keyed, n, step, p);
      }
    }
    if ChildrenGone(path, n) {
      forall p | IsLeaf(n, p) ensures GoneAt(path, keyed, n, p) {
        assert p == [p[0]] + p[1..];
        LeafBelow(path, keyed, n, p[0], p[1..]);
      }
    }
  }

  lemma ScalarGone(path: seq<string>, keyed: bool, n: Node)
    requires n.kind == Scalar
    ensures AllGone(path, keyed, n) <==> Gone(path, keyed, n)
  {
    assert IsLeaf(n, []);
  }

  // ---------------------------------------------------------------- lists and mappings

  /** Pruning a new value leaves nothing but zeros exactly when every scalar in it is not worth writing. */
  lemma {:induction false} PrunedIsZero(path: seq<string>, n: Node)
    requires Proper(n)
    ensures IsZero(Prune(path, n)) <==> AllGone(path, false, n)
    decreases n
  {
    match n.kind
    case Scalar => ScalarGone(path, false, n);
    case Sequence =>
      GoneByChild(path, false, n);
      ElementsGone(path, n);
      ElementsZero(path, n);
      forall i | 0 <= i < |n.content|
        ensures IsZero(Prune(path, n.content[i])) <==> AllGone(path, false, n.content[i])
      {
        PrunedIsZero(path, n.content[i]);
      }
    case Mapping =>
      GoneByChild(path, false, n);
      FieldsGone(path, n);
      PairsZero(path, n, 0);
      AllZeroAt(Prune(path, n).content);
      forall m | 0 <= m < Pairs(n.content)
        ensures FieldGone(path, n, m) <==> AllGone(path + [KeyAt(n.content, m).value], true, ValueAt(n.content, m))
      {
        PrunedFieldIsZero(path, n, m);
      }
  }

  lemma ElementsZero(path: seq<string>, n: Node)
    requires n.kind == Sequence
    ensures IsZero(Prune(path, n)) <==> forall i :: 0 <= i < |n.content| ==> IsZero(Prune(path, n.content[i]))
  {
    var c := Prune(path, n).content;
    PrunedElement(path, n, 0, 0);
    forall i | 0 <= i < |n.content| ensures c[i] == Prune(path, n.content[i]) {
      PrunedElement(path, n, 0, i);
    }
  }

  /** The m-th pair leaves nothing but zeros. */
  predicate FieldGone(path: seq<string>, n: Node, m: nat)
    requires m < Pairs(n.content)
  {
    var below := path + [KeyAt(n.content, m).value];
    KnownDefault(below, ValueAt(n.content, m)) || IsZero(Prune(below, ValueAt(n.content, m)))
  }

  ghost predicate FieldsGoneFrom(path: seq<string>, n: Node, m: nat) {
    forall i :: m <= i < Pairs(n.content) ==> FieldGone(path, n, i)
  }

  lemma {:induction false} PrunedFieldIsZero(path: seq<string>, n: Node, m: nat)
    requires Proper(n) && n.kind == Mapping && m < Pairs(n.content)
    ensures FieldGone(path, n, m) <==> AllGone(path + [KeyAt(n.content, m).value], true, ValueAt(n.content, m))
    decreases n, 0
  {
    var below, value := path + [KeyAt(n.content, m).value], ValueAt(n.content, m);
    assert Proper(value);
    if value.kind == Scalar {
      ScalarGone(below, true, value);
    } else {
      PrunedIsZero(below, value);
      GoneByChild(below, true, value);
      GoneByChild(below, false, value);
      if IsZero(value) {
        ZeroIsPrunedToZero(below, value);
      }
    }
  }

  lemma {:induction false} ZeroIsPrunedToZero(path: seq<string>, n: Node)
    requires IsZero(n)
    ensures IsZero(Prune(path, n))
  {
    match n.kind
    case Sequence =>
      PrunedElement(path, n, 0, 0);
      forall i | 0 <= i < |n.content| ensures IsZero(Prune(path, n).content[i]) {
        PrunedElement(path, n, 0, i);
        ZeroIsPrunedToZero(path, n.content[i]);
      }
    case Mapping =>
      ZeroPairs(path, n, 0);
    case _ =>
  }

  lemma {:induction false} ZeroPairs(path: seq<string>, n: Node, m: nat)
    requires n.kind == Mapping && IsZero(n) && m <= Pairs(n.content)
    ensures PrunePairs(path, n, m) == []
    decreases Pairs(n.content) - m
  {
    if m < Pairs(n.content) {
      ZeroPairs(path, n, m + 1);
    }
  }

  predicate AllZero(c: seq<Node>) {
    |c| < 2 || (IsZero(c[1]) && AllZero(c[2..]))
  }

  lemma {:induction false} AllZeroAt(c: seq<Node>)
    ensures AllZero(c) <==> forall m :: 0 <= m < Pairs(c) ==> IsZero(c[2 * m + 1])
  {
    if |c| >= 2 {
      AllZeroAt(c[2..]);
      assert forall m :: 0 <= m < Pairs(c[2..]) ==> c[2..][2 * m + 1] == c[2 * (m + 1) + 1];
      if AllZero(c) {
        forall m | 0 <= m < Pairs(c) ensures IsZero(c[2 * m + 1]) {
          if m > 0 {
            assert IsZero(c[2..][2 * (m - 1) + 1]);
          }
        }
      }
      if forall m :: 0 <= m < Pairs(c) ==> IsZero(c[2 * m + 1]) {
        assert IsZero(c[2 * 0 + 1]);
        forall m | 0 <= m < Pairs(c[2..]) ensures IsZero(c[2..][2 * m + 1]) {
          assert IsZero(c[2 * (m + 1) + 1]);
        }
      }
    }
  }

  lemma {:induction false} PairsZero(path: seq<string>, n: Node, m: nat)
    requires n.kind == Mapping && m <= Pairs(n.content)
    ensures AllZero(PrunePairs(path, n, m)) <==> FieldsGoneFrom(path, n, m)
    decreases Pairs(n.content) - m
  {
    if m < Pairs(n.content) {
      PairsZero(path, n, m + 1);
      PairZero(path, n, m);
      FieldsGoneSplit(path, n, m);
    }
  }

  lemma FieldsGoneSplit(path: seq<string>, n: Node, m: nat)
    requires m < Pairs(n.content)
    ensures FieldsGoneFrom(path, n, m) <==> FieldGone(path, n, m) && FieldsGoneFrom(path, n, m + 1)
  {
  }

  lemma {:induction false} PairZero(path: seq<string>, n: Node, m: nat)
    requires n.kind == Mapping && m < Pairs(n.content)
    ensures AllZero(PrunePairs(path, n, m)) <==> FieldGone(path, n, m) && AllZero(PrunePairs(path, n, m + 1))
  {
    var key, value := KeyAt(n.content, m), ValueAt(n.content, m);
    var below, rest := path + [key.value], PrunePairs(path, n, m + 1);
    if KnownDefault(below, value) || EmptyCollection(Prune(below, value)) {
      assert [] + rest == rest;
    } else {
      assert ([key, Prune(below, value)] + rest)[2..] == rest;
    }
  }

  lemma ElementsGone(path: seq<string>, n: Node)
    requires n.kind == Sequence
    ensures ChildrenGone(path, n) <==> forall i :: 0 <= i < |n.content| ==> AllGone(path, false, n.content[i])
  {
    if ChildrenGone(path, n) {
      forall i | 0 <= i < |n.content| ensures AllGone(path, false, n.content[i]) {
        assert Child(n, Index(i)) == Some(n.content[i]);
      }
    }
  }

  lemma FieldsGone(path: seq<string>, n: Node)
    requires n.kind == Mapping && DistinctKeys(n.content)
    ensures ChildrenGone(path, n) <==>
      forall m :: 0 <= m < Pairs(n.content) ==>
        AllGone(path + [KeyAt(n.content, m).value], true, ValueAt(n.content, m))
  {
    if ChildrenGone(path, n) {
      forall m | 0 <= m < Pairs(n.content)
        ensures AllGone(path + [KeyAt(n.content, m).value], true, ValueAt(n.content, m))
      {
        FoundAt(n.content, KeyAt(n.content, m).value, m);
        assert Child(n, Key(KeyAt(n.content, m).value)) == Some(ValueAt(n.content, m));
      }
    }
  }

  /** A generated value under a key the user's mapping lacks is left out exactly when every scalar in it
      is not worth writing. */
  lemma NewValueDropped(dst: Node, src: Node, k: string, v: Node, path: seq<string>)
    requires Paired(dst) && dst.kind == Mapping && Child(dst, Key(k)).None?
    requires Proper(src) && Child(src, Key(k)) == Some(v)
    ensures Child(Merge(dst, src, path), Key(k)).None? <==>
      forall p :: IsLeaf(v, p) ==> GoneAt(path + [k], true, v, p)
  {
    MergedField(dst, src, path, k);
    PrunedIsZero(path + [k], v);
    if v.kind == Scalar {
      ScalarGone(path + [k], true, v);
    } else {
      GoneByChild(path + [k], true, v);
      GoneByChild(path + [k], false, v);
    }
  }

  /** A scalar worth writing is written wherever it stands in a new value. */
  lemma NewLeafReads(dst: Node, src: Node, k: string, v: Node, path: seq<string>, p: seq<Step>)
    requires Paired(dst) && dst.kind == Mapping && Child(dst, Key(k)).None?
    requires Proper(src) && Child(src, Key(k)) == Some(v) && IsLeaf(v, p) && !GoneAt(path + [k], true, v, p)
    ensures Read(Merge(dst, src, path), [Key(k)] + p) == Text(Find(v, p).value.tag, Find(v, p).value.value)
  {
    ReadBelow(Merge(dst, src, path), Key(k), p);
    NewValueKept(dst, src, k, v, path, p);
    LeafStays(path + [k], v, p);
  }

  /** One that is not, and stands directly under a key, is left out. */
  lemma NewLeafLeftOut(dst: Node, src: Node, k: string, v: Node, path: seq<string>, p: seq<Step>)
    requires Paired(dst) && dst.kind == Mapping && Child(dst, Key(k)).None?
    requires Proper(src) && Child(src, Key(k)) == Some(v) && IsLeaf(v, p) && GoneAt(path + [k], true, v, p)
    requires p == [] || p[|p| - 1].Key?
    ensures Read(Merge(dst, src, path), [Key(k)] + p) == Nothing
  {
    ReadBelow(Merge(dst, src, path), Key(k), p);
    NewValueStands(dst, src, k, v, path);
    LeafStays(path + [k], v, p);
  }

  /** What stands under a key the user's mapping lacks. */
  lemma NewValueStands(dst: Node, src: Node, k: string, v: Node, path: seq<string>)
    requires Paired(dst) && dst.kind == Mapping && Child(dst, Key(k)).None?
    requires Proper(src) && Child(src, Key(k)) == Some(v)
    ensures Child(Merge(dst, src, path), Key(k)) == None
            || Child(Merge(dst, src, path), Key(k)) == Some(Prune(path + [k], v))
    ensures v.kind == Scalar && Gone(path + [k], true, v) ==> Child(Merge(dst, src, path), Key(k)) == None
  {
    MergedField(dst, src, path, k);
  }

  lemma NewValueKept(dst: Node, src: Node, k: string, v: Node, path: seq<string>, p: seq<Step>)
    requires Paired(dst) && dst.kind == Mapping && Child(dst, Key(k)).None?
    requires Proper(src) && Child(src, Key(k)) == Some(v) && IsLeaf(v, p) && !GoneAt(path + [k], true, v, p)
    ensures Child(Merge(dst, src, path), Key(k)) == Some(Prune(path + [k], v))
  {
    NewValueDropped(dst, src, k, v, path);
    NewValueStands(dst, src, k, v, path);
  }

  lemma ReadBelow(n: Node, step: Step, p: seq<Step>)
    ensures Read(n, [step] + p) == match Child(n, step) case None => Nothing case Some(child) => Read(child, p)
  {
    assert ([step] + p)[1..] == p;
  }

  lemma LeafStays(path: seq<string>, n: Node, p: seq<Step>)
    requires Proper(n) && IsLeaf(n, p)
    ensures !GoneAt(path, true, n, p) ==> Read(Prune(path, n), p) == Read(n, p)
    ensures GoneAt(path, true, n, p) && p != [] && p[|p| - 1].Key? ==> Read(Prune(path, n), p) == Nothing
  {
    PrunedReads(path, n, p);
    LeafSpared(path, true, n, p);
  }

  lemma {:induction false} LeafSpared(path: seq<string>, keyed: bool, n: Node, p: seq<Step>)
    requires Proper(n) && IsLeaf(n, p)
    ensures !GoneAt(path, keyed, n, p) ==> Spared(path, n, p)
    ensures GoneAt(path, keyed, n, p) && p != [] && p[|p| - 1].Key? ==> !Spared(path, n, p)
    decreases |p|
  {
    if p != [] {
      var child := Child(n, p[0]).value;
      assert [p[0]] + p[1..] == p;
      LeafBelow(path, keyed, n, p[0], p[1..]);
      LeafSpared(Below(path, p[0]), p[0].Key?, child, p[1..]);
      if p[0].Key? {
        FieldSpared(path + [p[0].key], child, p[1..]);
      }
    }
  }

  /** A value that holds a scalar worth writing is not dropped. */
  lemma FieldSpared(below: seq<string>, value: Node, p: seq<Step>)
    requires Proper(value) && IsLeaf(value, p)
    ensures !GoneAt(below, true, value, p) ==>
      !KnownDefault(below, value) && !EmptyCollection(Prune(below, value))
    ensures p == [] && GoneAt(below, true, value, p) ==> KnownDefault(below, value)
  {
    if p != [] && !GoneAt(below, true, value, p) {
      assert !GoneAt(below, false, value, p);
      PrunedIsZero(below, value);
      if IsZero(value) {
        ZeroIsPrunedToZero(below, value);
      }
    }
  }

  // ---------------------------------------------------------------- lists and mappings within a new mapping

  ghost predicate AllZeroTexts(n: Node) {
    forall p :: IsLeaf(n, p) ==> ZeroText(Find(n, p).value)
  }

  lemma ZeroByChild(n: Node)
    requires n.kind != Scalar
    ensures AllZeroTexts(n) <==> forall step :: Child(n, step).Some? ==> AllZeroTexts(Child(n, step).value)
  {
    if AllZeroTexts(n) {
      forall step, p | Child(n, step).Some? && IsLeaf(Child(n, step).value, p)
        ensures ZeroText(Find(Child(n, step).value, p).value)
      {
        LeafBelow([], false, n, step, p);
        assert ([step] + p)[1..] == p;
        assert ZeroText(Find(n, [step] + p).value);
      }
    }
    if forall step :: Child(n, step).Some? ==> AllZeroTexts(Child(n, step).value) {
      forall p | IsLeaf(n, p) ensures ZeroText(Find(n, p).value) {
        assert IsLeaf(Child(n, p[0]).value, p[1..]);
      }
    }
  }

  lemma {:induction false} ZeroByTexts(n: Node)
    requires Proper(n)
    ensures IsZero(n) <==> AllZeroTexts(n)
  {
    if n.kind == Scalar {
      assert IsLeaf(n, []);
    } else {
      ZeroByChild(n);
      forall i | 0 <= i < |n.content| ensures IsZero(n.content[i]) <==> AllZeroTexts(n.content[i]) {
        ZeroByTexts(n.content[i]);
      }
      ChildrenZero(n);
    }
  }

  lemma ChildrenZero(n: Node)
    requires Proper(n) && n.kind != Scalar
    requires forall i :: 0 <= i < |n.content| ==> (IsZero(n.content[i]) <==> AllZeroTexts(n.content[i]))
    ensures IsZero(n) <==> forall step :: Child(n, step).Some? ==> AllZeroTexts(Child(n, step).value)
  {
    if forall step :: Child(n, step).Some? ==> AllZeroTexts(Child(n, step).value) {
      if n.kind == Sequence {
        forall i | 0 <= i < |n.content| ensures IsZero(n.content[i]) {
          assert Child(n, Index(i)) == Some(n.content[i]);
        }
      } else {
        forall m | 0 <= m < Pairs(n.content) ensures IsZero(n.content[2 * m + 1]) {
          FoundAt(n.content, KeyAt(n.content, m).value, m);
          assert Child(n, Key(KeyAt(n.content, m).value)) == Some(n.content[2 * m + 1]);
        }
      }
    }
  }

  lemma {:induction false} PrunedIsPaired(path: seq<string>, n: Node, m: nat)
    requires m <= Pairs(n.content)
    ensures |PrunePairs(path, n, m)| % 2 == 0
    decreases Pairs(n.content) - m
  {
    if m < Pairs(n.content) {
      PrunedIsPaired(path, n, m + 1);
    }
  }

  lemma NothingLeft(path: seq<string>, n: Node)
    requires n.kind == Mapping || n.kind == Sequence
    ensures EmptyCollection(Prune(path, n)) <==> forall step :: Child(Prune(path, n), step).None?
  {
    var c := Prune(path, n).content;
    if n.kind == Mapping {
      PrunedIsPaired(path, n, 0);
      if c != [] {
        FoundAt(c, KeyAt(c, 0).value, 0);
        assert Child(Prune(path, n), Key(KeyAt(c, 0).value)).Some?;
      }
    } else if c != [] {
      assert Child(Prune(path, n), Index(0)).Some?;
    }
  }

  /** Inside a new mapping a list or mapping is dropped exactly when every scalar in it is a zero or pruning
      leaves nothing in it. */
  lemma NestedDropped(path: seq<string>, n: Node, k: string, v: Node)
    requires Proper(n) && n.kind == Mapping && Child(n, Key(k)) == Some(v) && v.kind != Scalar
    ensures Child(Prune(path, n), Key(k)).None? <==>
      || (forall p :: IsLeaf(v, p) ==> ZeroText(Find(v, p).value))
      || (forall step :: Child(Prune(path + [k], v), step).None?)
    ensures Child(Prune(path, n), Key(k)).Some? ==> Child(Prune(path, n), Key(k)).value == Prune(path + [k], v)
  {
    PrunedField(path, n, k);
    ZeroByTexts(v);
    NothingLeft(path + [k], v);
  }
}
