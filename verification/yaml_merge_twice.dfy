/** Merging the same generated tree a second time, as saving an unchanged configuration again does. */
module YamlMergeTwice {
  import opened Wrappers
  import opened Texts
  import opened YamlTree
  import opened YamlMerge

  // ---------------------------------------------------------------- the merged tree can be merged into again

  ghost predicate AllPaired(c: seq<Node>) {
    forall i :: 0 <= i < |c| ==> Paired(c[i])
  }

  lemma {:induction false} PrunePairsKeepPaired(path: seq<string>, n: Node, m: nat)
    requires m <= Pairs(n.content) && AllPaired(n.content)
    ensures AllPaired(PrunePairs(path, n, m)) && |PrunePairs(path, n, m)| % 2 == 0
    decreases n, Pairs(n.content) - m
  {
    if m < Pairs(n.content) {
      var key, value := n.content[2 * m], n.content[2 * m + 1];
      PruneKeepsPaired(path + [key.value], value);
      PrunePairsKeepPaired(path, n, m + 1);
      assert PrunePairs(path, n, m) ==
        (if PrunedValue(path + [key.value], value).None? then [] else [key, Prune(path + [key.value], value)])
        + PrunePairs(path, n, m + 1);
    }
  }

  lemma {:induction false} PruneElementsKeepPaired(path: seq<string>, n: Node, i: nat)
    requires i <= |n.content| && AllPaired(n.content)
    ensures AllPaired(PruneElements(path, n, i))
    decreases n, |n.content| - i
  {
    if i < |n.content| {
      PruneKeepsPaired(path, n.content[i]);
      PruneElementsKeepPaired(path, n, i + 1);
    }
  }

  lemma {:induction false} PruneKeepsPaired(path: seq<string>, n: Node)
    requires Paired(n)
    ensures Paired(Prune(path, n))
    decreases n, |n.content| + 1
  {
    match n.kind
    case Mapping => PrunePairsKeepPaired(path, n, 0);
    case Sequence => PruneElementsKeepPaired(path, n, 0);
    case _ =>
  }

  lemma {:induction false} ListedKeepPaired(c: seq<Node>, listed: seq<Node>, m: nat)
    requires m <= Pairs(c) && AllPaired(c) && |c| % 2 == 0
    ensures AllPaired(KeepListed(c, listed, m)) && |KeepListed(c, listed, m)| % 2 == 0
    decreases Pairs(c) - m
  {
    if m < Pairs(c) {
      ListedKeepPaired(c, listed, m + 1);
    }
  }

  lemma {:induction false} MissingKeepsPaired(merged: Node, src: Node)
    requires Paired(merged)
    ensures Paired(PruneMissing(merged, src))
  {
    if merged.kind == Mapping && src.kind == Mapping {
      ListedKeepPaired(merged.content, src.content, 0);
    }
  }

  lemma {:induction false} PairKeepsPaired(c: seq<Node>, src: Node, m: nat, path: seq<string>)
    requires m < Pairs(src.content) && Proper(src) && AllPaired(c) && |c| % 2 == 0
    ensures AllPaired(MergePair(c, src, m, path)) && |MergePair(c, src, m, path)| % 2 == 0
    decreases src, 0
  {
    var key, value := src.content[2 * m], src.content[2 * m + 1];
    var r := FindPair(c, key.value, 0);
    ProperIsPaired(key);
    ProperIsPaired(value);
    if r >= 0 {
      MergeKeepsPaired(c[2 * r + 1], value, path + [key.value]);
    } else {
      PruneKeepsPaired(path + [key.value], value);
    }
  }

  lemma {:induction false} PairsKeepPaired(c: seq<Node>, src: Node, m: nat, path: seq<string>)
    requires m <= Pairs(src.content) && Proper(src) && AllPaired(c) && |c| % 2 == 0
    ensures AllPaired(MergePairs(c, src, m, path)) && |MergePairs(c, src, m, path)| % 2 == 0
    decreases src, Pairs(src.content) - m + 1
  {
    if m < Pairs(src.content) {
      PairKeepsPaired(c, src, m, path);
      PairsKeepPaired(MergePair(c, src, m, path), src, m + 1, path);
    }
  }

  lemma {:induction false} ElementsKeepPaired(original: seq<Node>, slots: seq<int>, src: Node, i: nat,
                                              path: seq<string>)
    requires i <= |src.content| == |slots| && Proper(src) && AllPaired(original)
    requires forall k :: 0 <= k < |slots| ==> -1 <= slots[k] < |original|
    ensures AllPaired(MergeElements(original, slots, src, i, path))
    decreases src, |src.content| - i + 1
  {
    if i < |src.content| {
      ProperIsPaired(src.content[i]);
      if slots[i] >= 0 {
        MergeKeepsPaired(original[slots[i]], src.content[i], path);
        MissingKeepsPaired(Merge(original[slots[i]], src.content[i], path), src.content[i]);
      }
      ElementsKeepPaired(original, slots, src, i + 1, path);
    }
  }

  /** In a merged tree every key has a value again. */
  lemma {:induction false} MergeKeepsPaired(dst: Node, src: Node, path: seq<string>)
    requires Paired(dst) && Proper(src)
    ensures Paired(Merge(dst, src, path))
    decreases src, |src.content| + 3
  {
    ProperIsPaired(src);
    match src.kind
    case Mapping => PairsKeepPaired(AsMapping(dst, src).content, src, 0, path);
    case Sequence =>
      if !KeepsNull(dst, src) {
        var c := AsSequence(dst).content;
        ElementsKeepPaired(c, Slots(c, {}, src.content), src, 0, path);
      }
    case Scalar =>
  }

  // ---------------------------------------------------------------- away from sequences

  lemma {:induction false} ZeroStaysZero(path: seq<string>, n: Node)
    requires IsZero(n)
    ensures IsZero(Prune(path, n))
    decreases n
  {
    match n.kind
    case Mapping => ZeroPairsVanish(path, n, 0);
    case Sequence =>
      PrunedElement(path, n, 0, 0);
      forall i | 0 <= i < |n.content| ensures IsZero(Prune(path, n).content[i]) {
        PrunedElement(path, n, 0, i);
        ZeroStaysZero(path, n.content[i]);
      }
    case Scalar =>
  }

  lemma {:induction false} ZeroPairsVanish(path: seq<string>, n: Node, m: nat)
    requires m <= Pairs(n.content) && n.kind == Mapping && IsZero(n)
    ensures PrunePairs(path, n, m) == []
    decreases Pairs(n.content) - m
  {
    if m < Pairs(n.content) {
      ZeroPairsVanish(path, n, m + 1);
    }
  }

  /** What is dropped from a new value is dropped again when it is found missing. */
  lemma {:induction false} DroppedIsDefault(below: seq<string>, value: Node)
    requires PrunedValue(below, value) == None
    ensures KnownDefault(below, Prune(below, value))
  {
    if IsZero(value) {
      ZeroStaysZero(below, value);
    }
  }

  /** A pruned new value reads the same after the value is merged into it. */
  lemma {:induction false} PrunedThenMerged(value: Node, p: seq<Step>, path: seq<string>)
    requires Proper(value) && Find(value, p).Some? && KeysOnly(p)
    ensures Read(Merge(Prune(path, value), value, path), p) == Read(Prune(path, value), p)
    decreases |p|
  {
    var pruned := Prune(path, value);
    ProperIsPaired(value);
    PruneKeepsPaired(path, value);
    if p == [] {
      MergedSays(pruned, value, path);
      PrunedSays(path, value);
    } else {
      var k, child := p[0].key, Child(value, p[0]).value;
      PrunedField(path, value, k);
      MergedField(pruned, value, path, k);
      if PrunedValue(path + [k], child).Some? {
        PrunedThenMerged(child, p[1..], path + [k]);
      } else {
        DroppedIsDefault(path + [k], child);
      }
    }
  }

  /** What stands under a key after the first merge, and what the second makes of it. */
  lemma {:induction false} FieldMergedTwice(dst: Node, src: Node, path: seq<string>, k: string)
    requires Paired(dst) && Proper(src) && src.kind == Mapping && Lookup(src.content, k).Some?
    ensures var v, below := Lookup(src.content, k).value, path + [k];
      var once := Merge(dst, src, path);
      Child(once, Key(k)) == MergedValue(Lookup(AsMapping(dst, src).content, k), v, below)
      && Child(Merge(once, src, path), Key(k)) == MergedValue(Child(once, Key(k)), v, below)
  {
    MergeKeepsPaired(dst, src, path);
    MergedField(dst, src, path, k);
    MergedField(Merge(dst, src, path), src, path, k);
  }

  lemma {:induction false} SecondMergeSaysSame(dst: Node, src: Node, path: seq<string>)
    requires Proper(src)
    ensures Says(Merge(Merge(dst, src, path), src, path)) == Says(Merge(dst, src, path))
  {
    MergedSays(dst, src, path);
    MergedSays(Merge(dst, src, path), src, path);
  }

  /** Away from sequences a second merge of the same tree leaves every reading as the first one made it. */
  lemma {:induction false} SecondMergeReadsSame(dst: Node, src: Node, p: seq<Step>, path: seq<string>)
    requires Paired(dst) && Proper(src) && Find(src, p).Some? && KeysOnly(p)
    ensures Read(Merge(Merge(dst, src, path), src, path), p) == Read(Merge(dst, src, path), p)
    decreases |p|
  {
    if p == [] {
      SecondMergeSaysSame(dst, src, path);
    } else {
      var k, child := p[0].key, Child(src, p[0]).value;
      var below := path + [k];
      ProperIsPaired(src);
      FieldMergedTwice(dst, src, path, k);
      match Lookup(AsMapping(dst, src).content, k)
      case Some(d) => SecondMergeReadsSame(d, child, p[1..], below);
      case None =>
        if !KnownDefault(below, Prune(below, child)) {
          PrunedThenMerged(child, p[1..], below);
        }
    }
  }

  // ---------------------------------------------------------------- in sequences

  predicate EmptySequence(n: Node) {
    n.kind == Sequence && n.content == []
  }

  /** A generated value that a merge does not keep is not there at all, unless it is an empty list, for
      which a null may stand. */
  lemma {:induction false} LostReadsNothing(dst: Node, src: Node, p: seq<Step>, path: seq<string>)
    requires Paired(dst) && Proper(src) && Find(src, p).Some? && !Keeps(dst, src, p, path)
    requires !EmptySequence(Find(src, p).value)
    ensures Read(Merge(dst, src, path), p) == Nothing
    decreases |p|
  {
    if p != [] {
      var child := Child(src, p[0]).value;
      match p[0]
      case Key(k) =>
        ProperIsPaired(src);
        MergedField(dst, src, path, k);
        match Lookup(AsMapping(dst, src).content, k) {
          case Some(d) => LostReadsNothing(d, child, p[1..], path + [k]);
          case None => PrunedReads(path + [k], child, p[1..]);
        }
      case Index(i) =>
        var d := AsSequence(dst).content[SlotOf(dst, src, i)];
        MergedSlot(dst, src, path, i);
        PrunedMissingReads(Merge(d, child, path), child, p[1..]);
        if !BlankKey(p[1..]) {
          LostReadsNothing(d, child, p[1..], path);
        }
    }
  }

  /** Anywhere, sequences included: a generated value reads the same after the second merge as after the
      first exactly when both keep it or neither does.  Only where both lose an empty list may either null
      or nothing stand there. */
  lemma {:induction false} SecondMergeReads(dst: Node, src: Node, p: seq<Step>, path: seq<string>)
    requires Paired(dst) && Proper(src) && Find(src, p).Some?
    ensures var once := Merge(dst, src, path);
      var same := Read(Merge(once, src, path), p) == Read(once, p);
      if Keeps(dst, src, p, path) || Keeps(once, src, p, path) || !EmptySequence(Find(src, p).value)
      then same <==> (Keeps(dst, src, p, path) <==> Keeps(once, src, p, path))
      else Read(once, p) != Read(src, p) && Read(Merge(once, src, path), p) != Read(src, p)
  {
    var once := Merge(dst, src, path);
    MergeKeepsPaired(dst, src, path);
    MergedReads(dst, src, p, path);
    MergedReads(once, src, p, path);
    if !EmptySequence(Find(src, p).value) {
      if !Keeps(dst, src, p, path) {
        LostReadsNothing(dst, src, p, path);
      }
      if !Keeps(once, src, p, path) {
        LostReadsNothing(once, src, p, path);
      }
    }
  }

  // ---------------------------------------------------------------- a second merge that differs

  function OneField(key: string, value: Node): Node {
    Node(null, Mapping, "!!map", "", [Node(null, Scalar, "!!str", key, []), value])
  }

  function OneElement(element: Node): Node {
    Node(null, Sequence, "!!seq", "", [element])
  }

  const ZERO := Node(null, Scalar, "!!int", "0", [])

  lemma {:induction false} EmptyHasNoIdentity(keys: seq<string>)
    ensures NamedIdentity([], keys) == ""
  {
    if keys != [] {
      EmptyHasNoIdentity(keys[1..]);
    }
  }

  lemma {:induction false} NamedById(key: string)
    requires Lower(Trim(key)) == Lower("id")
    ensures Identity(OneField(key, ZERO)) == "id=0"
  {
    var c := OneField(key, ZERO).content;
    assert IDENTITY_KEYS[0] == "id";
    assert KeyAt(c, 0).value == key && ValueAt(c, 0) == ZERO;
    assert Trim("0") == "0";
    assert MappingScalar(c, "id", 0) == "0";
  }

  lemma {:induction false} LettersOf()
    ensures Trim("ID") == "ID" && Trim("id") == "id"
    ensures Lower("ID") == Lower("id") == "id"
  {
    assert Lower("ID") == "id";
    assert Lower("id") == "id";
  }

  lemma {:induction false} FieldIsDropped(path: seq<string>)
    ensures Merge(OneField("ID", ZERO), OneField("id", ZERO), path) == OneField("ID", ZERO)
    ensures PruneMissing(OneField("ID", ZERO), OneField("id", ZERO)) == OneField("ID", ZERO).(content := [])
  {
    var d, s := OneField("ID", ZERO), OneField("id", ZERO);
    LettersOf();
    assert KeyAt(d.content, 0).value == "ID" && KeyAt(s.content, 0).value == "id";
    assert "ID"[0] != "id"[0];
    NotFound(d.content, "id");
    assert Prune(path + ["id"], ZERO) == ZERO && IsZero(ZERO);
    assert MergePair(d.content, s, 0, path) == d.content;
    assert MergePairs(d.content, s, 0, path) == MergePairs(d.content, s, 1, path) == d.content;
    assert !Listed(s.content, "ID");
    assert KeepListed(d.content, s.content, 1) == [];
    assert KeepListed(d.content, s.content, 0) == [];
  }

  lemma {:induction false} OnlySlot(old_: Node, target: Node)
    ensures Slots([old_], {}, [target]) == [if Corresponds(old_, target) then 0 else -1]
  {
    assert [target][1..] == [];
    assert MatchElement([old_], {}, target) == if Corresponds(old_, target) then 0 else -1;
  }

  lemma {:induction false} OneElementMerged(old_: Node, target: Node, path: seq<string>)
    ensures Merge(OneElement(old_), OneElement(target), path) ==
      OneElement(if Corresponds(old_, target) then PruneMissing(Merge(old_, target, path), target) else target)
  {
    var dst, src := OneElement(old_), OneElement(target);
    var slots := Slots([old_], {}, [target]);
    OnlySlot(old_, target);
    assert MergeElements([old_], slots, src, 1, path) == [];
    assert Merge(dst, src, path) == dst.(content := MergeElements([old_], slots, src, 0, path));
  }

  lemma {:induction false} ElementReads(e: Node, k: string)
    ensures Read(OneElement(e), [Index(0), Key(k)]) == Read(e, [Key(k)])
  {
    assert [Index(0), Key(k)][1..] == [Key(k)];
  }

  lemma {:induction false} FieldsCorrespond()
    ensures Corresponds(OneField("ID", ZERO), OneField("id", ZERO))
    ensures !Corresponds(OneField("ID", ZERO).(content := []), OneField("id", ZERO))
  {
    LettersOf();
    NamedById("ID");
    NamedById("id");
    EmptyHasNoIdentity(IDENTITY_KEYS);
  }

  lemma {:induction false} FieldReads()
    ensures Read(OneField("id", ZERO), [Key("id")]) == Text("!!int", "0")
    ensures Read(OneField("ID", ZERO).(content := []), [Key("id")]) == Nothing
    ensures Paired(OneElement(OneField("ID", ZERO))) && Proper(OneElement(OneField("id", ZERO)))
  {
    var s := OneField("id", ZERO);
    var p: seq<Step> := [Key("id")];
    assert KeyAt(s.content, 0).value == "id" && ValueAt(s.content, 0) == ZERO;
    FoundAt(s.content, "id", 0);
    assert Child(s, p[0]) == Some(ZERO) && p[1..] == [];
    assert Find(s, p) == Find(ZERO, p[1..]) == Some(ZERO);
    assert Proper(ZERO) && Proper(s.content[0]) && Proper(s);
    NotFound([], "id");
    var d := OneField("ID", ZERO);
    assert Paired(ZERO) && Paired(d.content[0]) && Paired(d);
  }

  /** The user's list holds one element with ID 0, the generated one an element with id 0.  The first merge
      matches them by name, drops the new field as a zero and the old one as missing; the second finds no
      match any more and copies the generated element. */
  lemma {:induction false} SecondMergeMayDiffer(path: seq<string>)
    ensures var dst, src := OneElement(OneField("ID", ZERO)), OneElement(OneField("id", ZERO));
      var p := [Index(0), Key("id")];
      var once := Merge(dst, src, path);
      Paired(dst) && Proper(src)
      && Read(once, p) == Nothing && Read(Merge(once, src, path), p) == Text("!!int", "0") == Read(src, p)
  {
    var d, s := OneField("ID", ZERO), OneField("id", ZERO);
    var bare := d.(content := []);
    FieldsCorrespond();
    FieldIsDropped(path);
    OneElementMerged(d, s, path);
    OneElementMerged(bare, s, path);
    FieldReads();
    ElementReads(s, "id");
    ElementReads(bare, "id");
  }
}
