/** What makes two elements of a list the same: the name an element goes by, and its structure. */
module YamlIdentity {
  import opened Wrappers
  import opened Texts
  import opened YamlTree
  import opened YamlMerge

  // ---------------------------------------------------------------- structure

  /** What is left of a tree when tags, surrounding blanks and the text of inner nodes do not count. */
  datatype Skeleton = Leaf(kind: Kind, text: string) | Branch(kind: Kind, parts: seq<Skeleton>)

  function SkeletonOf(n: Node): Skeleton {
    if n.kind == Mapping || n.kind == Sequence
    then Branch(n.kind, seq(|n.content|, i requires 0 <= i < |n.content| => SkeletonOf(n.content[i])))
    else Leaf(n.kind, Trim(n.value))
  }

  /** Two trees have the same structure exactly when they have the same skeleton. */
  lemma {:induction false} StructureIsSkeleton(a: Node, b: Node)
    requires Paired(a) && Paired(b)
    ensures SameStructure(a, b) <==> SkeletonOf(a) == SkeletonOf(b)
  {
    if a.kind != b.kind {
      assert SkeletonOf(a).kind == a.kind && SkeletonOf(b).kind == b.kind;
    } else if a.kind != Mapping && a.kind != Sequence {
      assert SkeletonOf(a) == Leaf(a.kind, Trim(a.value)) && SkeletonOf(b) == Leaf(b.kind, Trim(b.value));
    } else if |a.content| != |b.content| {
      assert |SkeletonOf(a).parts| == |a.content| && |SkeletonOf(b).parts| == |b.content|;
    } else {
      forall i | 0 <= i < |a.content|
        ensures SameStructure(a.content[i], b.content[i]) <==> SkeletonOf(a.content[i]) == SkeletonOf(b.content[i])
      {
        StructureIsSkeleton(a.content[i], b.content[i]);
      }
      var x, y := SkeletonOf(a).parts, SkeletonOf(b).parts;
      assert forall i :: 0 <= i < |a.content| ==>
        x[i] == SkeletonOf(a.content[i]) && y[i] == SkeletonOf(b.content[i]);
      if SameStructure(a, b) {
        assert x == y;
      }
      if x == y {
        forall i | 0 <= i < |a.content| ensures SameStructure(a.content[i], b.content[i]) {
          assert x[i] == y[i];
        }
      }
    }
  }

  // ---------------------------------------------------------------- names

  /** A scalar under the key, whatever its case and the blanks around it. */
  predicate IsUnder(c: seq<Node>, key: string, m: nat)
    requires m < Pairs(c)
  {
    ValueAt(c, m).kind == Scalar && Lower(Trim(KeyAt(c, m).value)) == Lower(key)
  }

  /** The first scalar under the key is this text, which is not blank. */
  ghost predicate Names(c: seq<Node>, key: string, text: string) {
    text != ""
    && exists m: nat :: m < Pairs(c) && IsUnder(c, key, m) && Trim(ValueAt(c, m).value) == text
                        && forall j :: 0 <= j < m ==> !IsUnder(c, key, j)
  }

  lemma {:induction false} ScalarIsFirst(c: seq<Node>, key: string, m: nat)
    requires m <= Pairs(c) && forall j :: 0 <= j < m ==> !IsUnder(c, key, j)
    ensures MappingScalar(c, key, m) != "" ==> Names(c, key, MappingScalar(c, key, m))
    ensures MappingScalar(c, key, m) == "" ==> forall text :: !Names(c, key, text)
    decreases Pairs(c) - m
  {
    if m < Pairs(c) {
      if IsUnder(c, key, m) {
        assert forall k: nat ::
          k < Pairs(c) && IsUnder(c, key, k) && (forall j :: 0 <= j < k ==> !IsUnder(c, key, j)) ==> k == m;
      } else {
        ScalarIsFirst(c, key, m + 1);
      }
    }
  }

  lemma {:induction false} NameIsScalar(c: seq<Node>, key: string, text: string)
    requires Names(c, key, text)
    ensures MappingScalar(c, key, 0) == text
  {
    var m: nat :| m < Pairs(c) && IsUnder(c, key, m) && Trim(ValueAt(c, m).value) == text
                  && forall j :: 0 <= j < m ==> !IsUnder(c, key, j);
    SkipTo(c, key, 0, m);
  }

  lemma {:induction false} SkipTo(c: seq<Node>, key: string, i: nat, m: nat)
    requires i <= m < Pairs(c) && forall j :: i <= j < m ==> !IsUnder(c, key, j)
    ensures MappingScalar(c, key, i) == MappingScalar(c, key, m)
    decreases m - i
  {
    if i < m {
      assert !IsUnder(c, key, i);
      SkipTo(c, key, i + 1, m);
    }
  }

  /** The first key of the list that names the element decides. */
  lemma {:induction false} FirstNameCounts(c: seq<Node>, keys: seq<string>, i: nat, text: string)
    requires i < |keys| && Names(c, keys[i], text)
    requires forall j, other :: 0 <= j < i ==> !Names(c, keys[j], other)
    ensures NamedIdentity(c, keys) == keys[i] + "=" + text
    decreases |keys|
  {
    NameIsScalar(c, keys[i], text);
    ScalarIsFirst(c, keys[0], 0);
    if i > 0 {
      assert !Names(c, keys[0], MappingScalar(c, keys[0], 0));
      FirstNameCounts(c, keys[1..], i - 1, text);
    }
  }

  lemma {:induction false} NoNameCounts(c: seq<Node>, keys: seq<string>)
    requires forall j, other :: 0 <= j < |keys| ==> !Names(c, keys[j], other)
    ensures NamedIdentity(c, keys) == ""
    decreases |keys|
  {
    if keys != [] {
      ScalarIsFirst(c, keys[0], 0);
      assert !Names(c, keys[0], MappingScalar(c, keys[0], 0));
      NoNameCounts(c, keys[1..]);
    }
  }

  /** A scalar that is not blank. */
  predicate Tells(c: seq<Node>, m: nat)
    requires m < Pairs(c)
  {
    ValueAt(c, m).kind == Scalar && Trim(ValueAt(c, m).value) != ""
  }

  lemma {:induction false} FirstTells(c: seq<Node>, i: nat, m: nat)
    requires i <= m <= Pairs(c) && forall j :: i <= j < m ==> !Tells(c, j)
    ensures FirstScalarIdentity(c, i) == FirstScalarIdentity(c, m)
    decreases m - i
  {
    if i < m {
      assert !Tells(c, i);
      FirstTells(c, i + 1, m);
    }
  }

  /** An element goes by the first of nine keys under which it has a scalar that is not blank. */
  lemma IdentityByKey(n: Node, i: nat, text: string)
    requires n.kind == Mapping && i < 9
    requires var keys := ["id", "name", "alias", "api-key", "api_key", "apikey", "key", "provider", "model"];
      Names(n.content, keys[i], text) && forall j, other :: 0 <= j < i ==> !Names(n.content, keys[j], other)
    ensures var keys := ["id", "name", "alias", "api-key", "api_key", "apikey", "key", "provider", "model"];
      Identity(n) == keys[i] + "=" + text
  {
    var keys := ["id", "name", "alias", "api-key", "api_key", "apikey", "key", "provider", "model"];
    assert keys == IDENTITY_KEYS;
    FirstNameCounts(n.content, keys, i, text);
  }

  /** Without such a key it goes by its first scalar that is not blank, and without one by nothing. */
  lemma IdentityByScalar(n: Node, m: nat)
    requires n.kind == Mapping && m <= Pairs(n.content) && forall j :: 0 <= j < m ==> !Tells(n.content, j)
    requires var keys := ["id", "name", "alias", "api-key", "api_key", "apikey", "key", "provider", "model"];
      forall j, other :: 0 <= j < 9 ==> !Names(n.content, keys[j], other)
    ensures m == Pairs(n.content) ==> Identity(n) == ""
    ensures m < Pairs(n.content) && Tells(n.content, m) ==>
      Identity(n) == Lower(Trim(KeyAt(n.content, m).value)) + "=" + Trim(ValueAt(n.content, m).value)
  {
    var keys := ["id", "name", "alias", "api-key", "api_key", "apikey", "key", "provider", "model"];
    assert keys == IDENTITY_KEYS;
    NoNameCounts(n.content, keys);
    FirstTells(n.content, 0, m);
  }

  // ---------------------------------------------------------------- a reused element

  /** A reused mapping loses every key that the generated one lacks, blanks around it aside. */
  lemma ReusedElementKeys(dst: Node, src: Node, path: seq<string>, i: nat, k: string)
    requires src.kind == Sequence && i < |src.content| && src.content[i].kind == Mapping && SlotOf(dst, src, i) >= 0
    requires Find(Merge(dst, src, path), [Index(i), Key(k)]).Some?
    ensures Trim(k) != ""
    ensures var c := src.content[i].content;
      exists m: nat :: m < Pairs(c) && Trim(KeyAt(c, m).value) == Trim(k)
  {
    var element := src.content[i];
    var merged := Merge(AsSequence(dst).content[SlotOf(dst, src, i)], element, path);
    MergedSlot(dst, src, path, i);
    assert [Index(i), Key(k)][1..] == [Key(k)];
    KeptLookup(merged.content, element.content, 0, k);
  }
}
