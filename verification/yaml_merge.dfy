/** Merging a generated tree into the tree of the user's file: the resulting value, and what
    can be read back from it. */
module YamlMerge {
  import opened Wrappers
  import opened Texts
  import opened YamlTree

  // ---------------------------------------------------------------- the merged value

  function CopyShallow(dst: Node, src: Node): Node {
    dst.(kind := src.kind, tag := src.tag, value := src.value, content := src.content)
  }

  predicate KeepsNull(dst: Node, src: Node) {
    dst.kind == Scalar && dst.tag == "!!null" && src.kind == Sequence && src.content == []
  }

  function AsMapping(dst: Node, src: Node): Node {
    if dst.kind == Mapping then dst else CopyShallow(dst, src)
  }

  function AsSequence(dst: Node): Node {
    if dst.kind == Sequence then dst else dst.(kind := Sequence, tag := "!!seq", content := [])
  }

  function Merge(dst: Node, src: Node, path: seq<string>): (r: Node)
    ensures r.origin == dst.origin
    decreases src, |src.content| + 3
  {
    match src.kind
    case Mapping => MergeMapping(AsMapping(dst, src), src, path)
    case Sequence =>
      if KeepsNull(dst, src) then dst
      else
        var d := AsSequence(dst);
        d.(content := MergeElements(d.content, Slots(d.content, {}, src.content), src, 0, path))
    case Scalar => dst.(kind := Scalar, tag := src.tag, value := src.value)
    case Unset => dst
    case Document => CopyShallow(dst, src)
  }

  function MergeMapping(dst: Node, src: Node, path: seq<string>): (r: Node)
    ensures r.origin == dst.origin
    decreases src, |src.content| + 2
  {
    if dst.kind != Mapping || src.kind != Mapping then CopyShallow(dst, src)
    else dst.(content := MergePairs(dst.content, src, 0, path))
  }

  function MergePairs(c: seq<Node>, src: Node, m: nat, path: seq<string>): seq<Node>
    requires m <= Pairs(src.content)
    decreases src, Pairs(src.content) - m + 1
  {
    if m == Pairs(src.content) then c else MergePairs(MergePair(c, src, m, path), src, m + 1, path)
  }

  function MergePair(c: seq<Node>, src: Node, m: nat, path: seq<string>): seq<Node>
    requires m < Pairs(src.content)
    decreases src, 0
  {
    var key, value := src.content[2 * m], src.content[2 * m + 1];
    var below := path + [key.value];
    var r := FindPair(c, key.value, 0);
    if r >= 0 then c[2 * r + 1 := Merge(c[2 * r + 1], value, below)]
    else if KnownDefault(below, Prune(below, value)) then c
    else c + [key, Prune(below, value)]
  }

  function MergeElements(original: seq<Node>, slots: seq<int>, src: Node, i: nat, path: seq<string>): (r: seq<Node>)
    requires i <= |src.content| == |slots|
    requires forall k :: 0 <= k < |slots| ==> -1 <= slots[k] < |original|
    ensures |r| == |src.content| - i
    decreases src, |src.content| - i + 1
  {
    if i == |src.content| then []
    else
      [if slots[i] < 0 then src.content[i]
       else PruneMissing(Merge(original[slots[i]], src.content[i], path), src.content[i])]
      + MergeElements(original, slots, src, i + 1, path)
  }

  /** Whether some key of the mapping, trimmed, is this non-blank text. */
  predicate Listed(c: seq<Node>, key: string) {
    key != "" && exists m :: 0 <= m < Pairs(c) && Trim(KeyAt(c, m).value) == key
  }

  function KeepListed(c: seq<Node>, listed: seq<Node>, m: nat): seq<Node>
    requires m <= Pairs(c)
    decreases Pairs(c) - m
  {
    if m == Pairs(c) then c[2 * m..]
    else (if Listed(listed, Trim(KeyAt(c, m).value)) then [KeyAt(c, m), ValueAt(c, m)] else [])
         + KeepListed(c, listed, m + 1)
  }

  function PruneMissing(merged: Node, src: Node): (r: Node)
    ensures r.origin == merged.origin && r.kind == merged.kind
  {
    if merged.kind == Mapping && src.kind == Mapping
    then merged.(content := KeepListed(merged.content, src.content, 0))
    else merged
  }

  // ---------------------------------------------------------------- reading a tree

  datatype Step = Key(key: string) | Index(index: nat)

  function Child(n: Node, step: Step): (r: Option<Node>)
    ensures r.Some? ==> r.value in n.content
  {
    match step
    case Key(k) => if n.kind == Mapping then Lookup(n.content, k) else None
    case Index(i) => if n.kind == Sequence && i < |n.content| then Some(n.content[i]) else None
  }

  function Find(n: Node, p: seq<Step>): Option<Node> {
    if p == [] then Some(n)
    else
      match Child(n, p[0])
      case None => None
      case Some(child) => Find(child, p[1..])
  }

  datatype Reading = Text(tag: string, value: string) | Fields | Elements(count: nat) | Nothing

  /** What a node says by itself. */
  function Says(n: Node): Reading {
    match n.kind
    case Scalar => Text(n.tag, n.value)
    case Mapping => Fields
    case Sequence => Elements(|n.content|)
    case _ => Nothing
  }

  function Read(n: Node, p: seq<Step>): Reading {
    match Find(n, p)
    case None => Nothing
    case Some(found) => Says(found)
  }

  /** A tree as the generator makes it: scalars, sequences, and mappings with distinct keys. */
  ghost predicate Proper(n: Node) {
    n.kind in {Scalar, Mapping, Sequence}
    && (n.kind == Mapping ==> |n.content| % 2 == 0 && DistinctKeys(n.content))
    && forall i :: 0 <= i < |n.content| ==> Proper(n.content[i])
  }

  ghost predicate DistinctKeys(c: seq<Node>) {
    forall i, j :: 0 <= i < j < Pairs(c) ==> KeyAt(c, i).value != KeyAt(c, j).value
  }

  /** A tree in which every key has a value. */
  ghost predicate Paired(n: Node) {
    (n.kind == Mapping ==> |n.content| % 2 == 0)
    && forall i :: 0 <= i < |n.content| ==> Paired(n.content[i])
  }

  lemma {:induction false} ProperIsPaired(n: Node)
    requires Proper(n)
    ensures Paired(n)
  {
    forall i | 0 <= i < |n.content| ensures Paired(n.content[i]) {
      ProperIsPaired(n.content[i]);
    }
  }

  // ---------------------------------------------------------------- what pruning leaves

  /** Nothing on the way down `p` is dropped from a new value. */
  ghost predicate Spared(path: seq<string>, n: Node, p: seq<Step>)
    decreases |p|
  {
    p == []
    || match Child(n, p[0])
       case None => false
       case Some(child) =>
         if p[0].Index? then Spared(path, child, p[1..])
         else
           var below := path + [p[0].key];
           !KnownDefault(below, child) && !EmptyCollection(Prune(below, child)) && Spared(below, child, p[1..])
  }

  lemma LookupFirst(key: Node, value: Node, c: seq<Node>, q: string)
    ensures Lookup([key, value] + c, q) == if key.value == q then Some(value) else Lookup(c, q)
  {
    var whole := [key, value] + c;
    assert KeyAt(whole, 0) == key && ValueAt(whole, 0) == value;
    assert forall i :: 0 <= i < Pairs(c) ==>
      KeyAt(whole, i + 1) == KeyAt(c, i) && ValueAt(whole, i + 1) == ValueAt(c, i);
    var r := FindPair(c, q, 0);
    if key.value == q {
      FoundAt(whole, q, 0);
    } else if r >= 0 {
      assert forall i :: 0 < i < r + 1 ==> KeyAt(whole, i) == KeyAt(c, i - 1);
      FoundAt(whole, q, r + 1);
    } else {
      assert forall i :: 0 < i < Pairs(whole) ==> KeyAt(whole, i) == KeyAt(c, i - 1);
      NotFound(whole, q);
    }
  }

  lemma LookupUpdated(c: seq<Node>, r: nat, key: string, value: Node, q: string)
    requires r < Pairs(c) && FindPair(c, key, 0) == r
    ensures Lookup(c[2 * r + 1 := value], q) == if q == key then Some(value) else Lookup(c, q)
  {
    var d := c[2 * r + 1 := value];
    assert forall i :: 0 <= i < Pairs(c) ==> KeyAt(d, i) == KeyAt(c, i);
    var k := FindPair(c, q, 0);
    if k >= 0 {
      FoundAt(d, q, k);
    } else {
      NotFound(d, q);
    }
  }

  lemma LookupAppended(c: seq<Node>, key: Node, value: Node, q: string)
    requires |c| % 2 == 0
    ensures Lookup(c + [key, value], q) ==
      if Lookup(c, q).Some? then Lookup(c, q) else if key.value == q then Some(value) else None
  {
    var d := c + [key, value];
    assert Pairs(d) == Pairs(c) + 1;
    assert forall i :: 0 <= i < Pairs(c) ==> KeyAt(d, i) == KeyAt(c, i);
    assert KeyAt(d, Pairs(c)) == key && ValueAt(d, Pairs(c)) == value;
    var k := FindPair(c, q, 0);
    if k >= 0 {
      FoundAt(d, q, k);
    } else if key.value == q {
      FoundAt(d, q, Pairs(c));
    } else {
      NotFound(d, q);
    }
  }

  /** What pruning makes of a value under a key. */
  function PrunedValue(below: seq<string>, value: Node): Option<Node> {
    if KnownDefault(below, value) || EmptyCollection(Prune(below, value)) then None else Some(Prune(below, value))
  }

  lemma {:induction false} PrunedLookup(path: seq<string>, n: Node, m: nat, q: string)
    requires m <= Pairs(n.content) && DistinctKeys(n.content)
    ensures Lookup(PrunePairs(path, n, m), q) ==
      var r := FindPair(n.content, q, m);
      if r < 0 then None else PrunedValue(path + [q], ValueAt(n.content, r))
    decreases Pairs(n.content) - m
  {
    if m < Pairs(n.content) {
      var key, value := n.content[2 * m], n.content[2 * m + 1];
      var below := path + [key.value];
      var rest := PrunePairs(path, n, m + 1);
      PrunedLookup(path, n, m + 1, q);
      LookupMaybe(PrunedValue(below, value).Some?, key, YamlTree.Prune(below, value), rest, q);
      assert KeyAt(n.content, m) == key;
    }
  }

  lemma {:induction false} PrunedElement(path: seq<string>, n: Node, i: nat, k: nat)
    requires i <= |n.content|
    ensures |PruneElements(path, n, i)| == |n.content| - i
    ensures i <= k < |n.content| ==> PruneElements(path, n, i)[k - i] == Prune(path, n.content[k])
    decreases |n.content| - i
  {
    if i < |n.content| {
      PrunedElement(path, n, i + 1, k);
    }
  }

  lemma PrunedSays(path: seq<string>, n: Node)
    ensures Says(Prune(path, n)) == Says(n)
  {
    if n.kind == Sequence {
      PrunedElement(path, n, 0, 0);
    }
  }

  lemma PrunedField(path: seq<string>, n: Node, k: string)
    requires DistinctKeys(n.content)
    ensures Child(Prune(path, n), Key(k)) ==
      if Child(n, Key(k)).None? then None else PrunedValue(path + [k], Child(n, Key(k)).value)
  {
    if n.kind == Mapping {
      assert Prune(path, n) == n.(content := PrunePairs(path, n, 0));
      PrunedLookup(path, n, 0, k);
    }
  }

  lemma PrunedAt(path: seq<string>, n: Node, i: nat)
    ensures Child(Prune(path, n), Index(i)) ==
      if Child(n, Index(i)).None? then None else Some(Prune(path, Child(n, Index(i)).value))
  {
    if n.kind == Sequence {
      PrunedElement(path, n, 0, i);
    }
  }

  /** A pruned value still holds exactly the spared paths, and they say the same. */
  lemma {:induction false} PrunedReads(path: seq<string>, n: Node, p: seq<Step>)
    requires Proper(n) && Find(n, p).Some?
    ensures Spared(path, n, p) ==> Read(Prune(path, n), p) == Read(n, p)
    ensures !Spared(path, n, p) ==> Find(Prune(path, n), p).None?
    decreases |p|
  {
    if p == [] {
      PrunedSays(path, n);
    } else {
      var child := Child(n, p[0]).value;
      match p[0]
      case Key(k) =>
        PrunedField(path, n, k);
        PrunedReads(path + [k], child, p[1..]);
      case Index(i) =>
        PrunedAt(path, n, i);
        PrunedReads(path, child, p[1..]);
    }
  }

  // ---------------------------------------------------------------- what merging a mapping does to one key

  /** What stands under a key after the generated value is merged there. */
  function MergedValue(old_: Option<Node>, value: Node, below: seq<string>): Option<Node> {
    match old_
    case Some(d) => Some(Merge(d, value, below))
    case None => if KnownDefault(below, Prune(below, value)) then None else Some(Prune(below, value))
  }

  lemma PairLookup(c: seq<Node>, src: Node, m: nat, path: seq<string>, q: string)
    requires m < Pairs(src.content) && |c| % 2 == 0
    ensures |MergePair(c, src, m, path)| % 2 == 0
    ensures Lookup(MergePair(c, src, m, path), q) ==
      if q == KeyAt(src.content, m).value then MergedValue(Lookup(c, q), ValueAt(src.content, m), path + [q])
      else Lookup(c, q)
  {
    var key, value := src.content[2 * m], src.content[2 * m + 1];
    var below := path + [key.value];
    var r := FindPair(c, key.value, 0);
    if r >= 0 {
      LookupUpdated(c, r, key.value, Merge(c[2 * r + 1], value, below), q);
    } else {
      LookupAppended(c, key, Prune(below, value), q);
    }
  }

  lemma {:induction false} PairsLookup(c: seq<Node>, src: Node, m: nat, path: seq<string>, q: string)
    requires m <= Pairs(src.content) && |c| % 2 == 0 && DistinctKeys(src.content)
    ensures Lookup(MergePairs(c, src, m, path), q) ==
      var r := FindPair(src.content, q, m);
      if r < 0 then Lookup(c, q) else MergedValue(Lookup(c, q), ValueAt(src.content, r), path + [q])
    decreases Pairs(src.content) - m
  {
    if m < Pairs(src.content) {
      PairLookup(c, src, m, path, q);
      PairsLookup(MergePair(c, src, m, path), src, m + 1, path, q);
    }
  }

  lemma {:induction false} MergedElement(original: seq<Node>, slots: seq<int>, src: Node, i: nat,
                                         path: seq<string>, k: nat)
    requires i <= k < |src.content| == |slots|
    requires forall j :: 0 <= j < |slots| ==> -1 <= slots[j] < |original|
    ensures MergeElements(original, slots, src, i, path)[k - i] ==
      if slots[k] < 0 then src.content[k]
      else PruneMissing(Merge(original[slots[k]], src.content[k], path), src.content[k])
    decreases k - i
  {
    if i < k {
      MergedElement(original, slots, src, i + 1, path, k);
    }
  }

  /** Looking up in a list that starts with a pair that may have been left out. */
  lemma {:induction false} LookupMaybe(kept: bool, key: Node, value: Node, rest: seq<Node>, q: string)
    ensures Lookup((if kept then [key, value] else []) + rest, q) ==
      if kept && key.value == q then Some(value) else Lookup(rest, q)
  {
    if kept {
      LookupFirst(key, value, rest, q);
    } else {
      assert [] + rest == rest;
    }
  }

  lemma {:induction false} KeptLookup(c: seq<Node>, listed: seq<Node>, m: nat, q: string)
    requires m <= Pairs(c)
    ensures Lookup(KeepListed(c, listed, m), q) ==
      var r := FindPair(c, q, m);
      if r >= 0 && Listed(listed, Trim(q)) then Some(ValueAt(c, r)) else None
    decreases Pairs(c) - m
  {
    if m < Pairs(c) {
      KeptLookup(c, listed, m + 1, q);
      LookupMaybe(Listed(listed, Trim(KeyAt(c, m).value)), KeyAt(c, m), ValueAt(c, m), KeepListed(c, listed, m + 1), q);
    }
  }

  // ---------------------------------------------------------------- reading the merged tree

  predicate BlankKey(p: seq<Step>) {
    p != [] && p[0].Key? && Trim(p[0].key) == ""
  }

  function SlotOf(dst: Node, src: Node, i: nat): (r: int)
    requires i < |src.content|
    ensures -1 <= r < |AsSequence(dst).content|
  {
    Slots(AsSequence(dst).content, {}, src.content)[i]
  }

  /** The generated value at `p` reaches the merged tree: no explicit null stands for an empty
      list, a key that is new is not dropped as a default, and a reused sequence element has no
      blank key on the way. */
  ghost predicate Keeps(dst: Node, src: Node, p: seq<Step>, path: seq<string>)
    requires Find(src, p).Some?
    decreases |p|
  {
    if p == [] then !KeepsNull(dst, src)
    else
      var child := Child(src, p[0]).value;
      match p[0]
      case Key(k) =>
        var below := path + [k];
        (match Lookup(AsMapping(dst, src).content, k)
         case Some(d) => Keeps(d, child, p[1..], below)
         case None => !KnownDefault(below, Prune(below, child)) && Spared(below, child, p[1..]))
      case Index(i) =>
        var slot := SlotOf(dst, src, i);
        slot < 0 || (!BlankKey(p[1..]) && Keeps(AsSequence(dst).content[slot], child, p[1..], path))
  }

  lemma PropersSaySomething(src: Node, p: seq<Step>)
    requires Proper(src) && Find(src, p).Some?
    ensures Read(src, p) != Nothing
    decreases |p|
  {
    if p != [] {
      PropersSaySomething(Child(src, p[0]).value, p[1..]);
    }
  }

  lemma MergedSays(dst: Node, src: Node, path: seq<string>)
    requires Proper(src)
    ensures Says(Merge(dst, src, path)) == Says(src) <==> !KeepsNull(dst, src)
  {
  }

  lemma MergedField(dst: Node, src: Node, path: seq<string>, k: string)
    requires Paired(dst) && Proper(src) && src.kind == Mapping && Lookup(src.content, k).Some?
    ensures Child(Merge(dst, src, path), Key(k)) ==
      MergedValue(Lookup(AsMapping(dst, src).content, k), Lookup(src.content, k).value, path + [k])
  {
    PairsLookup(AsMapping(dst, src).content, src, 0, path, k);
  }

  lemma MergedSlot(dst: Node, src: Node, path: seq<string>, i: nat)
    requires src.kind == Sequence && i < |src.content|
    ensures Child(Merge(dst, src, path), Index(i)) == Some(
      var slot := SlotOf(dst, src, i);
      if slot < 0 then src.content[i]
      else PruneMissing(Merge(AsSequence(dst).content[slot], src.content[i], path), src.content[i]))
  {
    var d := AsSequence(dst);
    MergedElement(d.content, Slots(d.content, {}, src.content), src, 0, path, i);
  }

  /** Dropping the keys that are not listed loses only what stands under a blank key. */
  lemma PrunedMissingReads(merged: Node, src: Node, p: seq<Step>)
    requires Find(src, p).Some?
    ensures Read(PruneMissing(merged, src), p) == if BlankKey(p) then Nothing else Read(merged, p)
  {
    if p != [] && p[0].Key? && merged.kind == Mapping {
      var k := p[0].key;
      var r := FindPair(src.content, k, 0);
      assert Trim(KeyAt(src.content, r).value) == Trim(k);
      KeptLookup(merged.content, src.content, 0, k);
    }
  }

  /** Reading a path of the generated tree in the merged tree gives the generated value exactly
      when nothing on the way is kept as null, dropped as a default or lost to a blank key. */
  lemma {:induction false} MergedReads(dst: Node, src: Node, p: seq<Step>, path: seq<string>)
    requires Paired(dst) && Proper(src) && Find(src, p).Some?
    ensures Read(Merge(dst, src, path), p) == Read(src, p) <==> Keeps(dst, src, p, path)
    decreases |p|
  {
    if p == [] {
      MergedSays(dst, src, path);
    } else {
      PropersSaySomething(src, p);
      match p[0] {
        case Key(k) => FieldReads(dst, src, p, path);
        case Index(i) => ElementReads(dst, src, p, path);
      }
    }
  }

  lemma {:induction false} FieldReads(dst: Node, src: Node, p: seq<Step>, path: seq<string>)
    requires Paired(dst) && Proper(src) && Find(src, p).Some?
    requires p != [] && p[0].Key?
    ensures Read(Merge(dst, src, path), p) == Read(src, p) <==> Keeps(dst, src, p, path)
    decreases |p|, 0
  {
    var k := p[0].key;
    var child := Child(src, p[0]).value;
    var below := path + [k];
    PropersSaySomething(src, p);
    MergedField(dst, src, path, k);
    ProperIsPaired(src);
    match Lookup(AsMapping(dst, src).content, k)
    case Some(d) => MergedReads(d, child, p[1..], below);
    case None => PrunedReads(below, child, p[1..]);
  }

  lemma {:induction false} ElementReads(dst: Node, src: Node, p: seq<Step>, path: seq<string>)
    requires Paired(dst) && Proper(src) && Find(src, p).Some?
    requires p != [] && p[0].Index?
    ensures Read(Merge(dst, src, path), p) == Read(src, p) <==> Keeps(dst, src, p, path)
    decreases |p|, 0
  {
    var i := p[0].index;
    var child := Child(src, p[0]).value;
    PropersSaySomething(src, p);
    MergedSlot(dst, src, path, i);
    var slot := SlotOf(dst, src, i);
    if slot >= 0 {
      var d := AsSequence(dst).content[slot];
      MergedReads(d, child, p[1..], path);
      PrunedMissingReads(Merge(d, child, path), child, p[1..]);
    }
  }

  lemma {:induction false} SameAsItself(n: Node)
    ensures SameStructure(n, n)
  {
    forall i | 0 <= i < |n.content| ensures SameStructure(n.content[i], n.content[i]) {
      SameAsItself(n.content[i]);
    }
  }

  /** A blank key is lost even when the user's list already is the generated one. */
  lemma BlankKeyIsLost(src: Node, k: string, path: seq<string>)
    requires Proper(src) && src.kind == Sequence && Trim(k) == ""
    requires Find(src, [Index(0), Key(k)]).Some?
    ensures Read(Merge(src, src, path), [Index(0), Key(k)]) != Read(src, [Index(0), Key(k)])
  {
    var p := [Index(0), Key(k)];
    assert p[1..] == [Key(k)];
    ProperIsPaired(src);
    SameAsItself(src.content[0]);
    assert Corresponds(src.content[0], src.content[0]);
    assert SlotOf(src, src, 0) >= 0;
    MergedReads(src, src, p, path);
  }

  predicate KeysOnly(p: seq<Step>) {
    p == [] || (p[0].Key? && KeysOnly(p[1..]))
  }

  /** Away from sequences a generated value is lost only where the user's tree had nothing, or an
      explicit null for an empty list. */
  lemma {:induction false} LostWasAbsent(dst: Node, src: Node, p: seq<Step>, path: seq<string>)
    requires Paired(dst) && Proper(src) && Find(src, p).Some? && KeysOnly(p)
    requires Read(Merge(dst, src, path), p) != Read(src, p)
    ensures Find(dst, p).None? || KeepsNull(Find(dst, p).value, Find(src, p).value)
  {
    MergedReads(dst, src, p, path);
    NotKeptWasAbsent(dst, src, p, path);
  }

  lemma {:induction false} NotKeptWasAbsent(dst: Node, src: Node, p: seq<Step>, path: seq<string>)
    requires Find(src, p).Some? && KeysOnly(p)
    requires !Keeps(dst, src, p, path)
    ensures Find(dst, p).None? || KeepsNull(Find(dst, p).value, Find(src, p).value)
    decreases |p|
  {
    if p != [] && dst.kind == Mapping && Lookup(dst.content, p[0].key).Some? {
      NotKeptWasAbsent(Lookup(dst.content, p[0].key).value, Child(src, p[0]).value, p[1..], path + [p[0].key]);
    }
  }

  // ---------------------------------------------------------------- what the merge leaves in place

  /** The value that ends up in the i-th pair of the user's mapping once the generated pairs from
      the m-th on are merged. */
  function Updated(c: seq<Node>, src: Node, m: nat, path: seq<string>, i: nat): Node
    requires i < Pairs(c) && m <= Pairs(src.content)
  {
    var key := KeyAt(c, i).value;
    var r := FindPair(src.content, key, m);
    if FindPair(c, key, 0) == i && r >= 0 then Merge(ValueAt(c, i), ValueAt(src.content, r), path + [key])
    else ValueAt(c, i)
  }

  /** The pairs that are new, in the order of the generated tree. */
  function Added(c: seq<Node>, src: Node, m: nat, path: seq<string>): seq<Node>
    requires m <= Pairs(src.content)
    decreases Pairs(src.content) - m
  {
    if m == Pairs(src.content) then []
    else
      var key, value := KeyAt(src.content, m), ValueAt(src.content, m);
      var below := path + [key.value];
      (if Lookup(c, key.value).Some? || KnownDefault(below, Prune(below, value)) then []
       else [key, Prune(below, value)])
      + Added(c, src, m + 1, path)
  }

  lemma {:induction false} AddedDependsOnLookups(c: seq<Node>, d: seq<Node>, src: Node, m: nat, path: seq<string>)
    requires m <= Pairs(src.content)
    requires forall i :: m <= i < Pairs(src.content) ==>
      Lookup(c, KeyAt(src.content, i).value).Some? == Lookup(d, KeyAt(src.content, i).value).Some?
    ensures Added(c, src, m, path) == Added(d, src, m, path)
    decreases Pairs(src.content) - m
  {
    if m < Pairs(src.content) {
      AddedDependsOnLookups(c, d, src, m + 1, path);
    }
  }

  lemma PairPlaces(c: seq<Node>, src: Node, m: nat, path: seq<string>, i: nat)
    requires m < Pairs(src.content) && |c| % 2 == 0 && i < Pairs(c)
    ensures var d := MergePair(c, src, m, path);
      |d| >= |c| && KeyAt(d, i) == KeyAt(c, i)
      && FindPair(d, KeyAt(c, i).value, 0) == FindPair(c, KeyAt(c, i).value, 0)
      && ValueAt(d, i) ==
         if FindPair(c, KeyAt(src.content, m).value, 0) == i
         then Merge(ValueAt(c, i), ValueAt(src.content, m), path + [KeyAt(c, i).value])
         else ValueAt(c, i)
  {
    var d := MergePair(c, src, m, path);
    assert forall j :: 0 <= j < Pairs(c) ==> KeyAt(d, j) == KeyAt(c, j);
    var q := KeyAt(c, i).value;
    var r := FindPair(c, q, 0);
    FoundAt(d, q, r);
  }

  /** Every pair of the user's mapping stays where it is with its key node; only the value under
      the first occurrence of a generated key is merged, in place. */
  lemma {:induction false} PairsKeepPlace(c: seq<Node>, src: Node, m: nat, path: seq<string>, i: nat)
    requires m <= Pairs(src.content) && DistinctKeys(src.content) && |c| % 2 == 0 && i < Pairs(c)
    ensures var r := MergePairs(c, src, m, path);
      |r| >= |c| && KeyAt(r, i) == KeyAt(c, i) && ValueAt(r, i) == Updated(c, src, m, path, i)
    decreases Pairs(src.content) - m
  {
    if m < Pairs(src.content) {
      PairPlaces(c, src, m, path, i);
      PairLookup(c, src, m, path, "");
      PairsKeepPlace(MergePair(c, src, m, path), src, m + 1, path, i);
      assert KeyAt(src.content, m).value == KeyAt(c, i).value ==> FindPair(src.content, KeyAt(c, i).value, m + 1) == -1;
    }
  }

  lemma NewPairStays(c: seq<Node>, src: Node, m: nat, path: seq<string>)
    requires m < Pairs(src.content) && DistinctKeys(src.content) && |c| % 2 == 0
    ensures var d := MergePair(c, src, m, path);
      var r := MergePairs(d, src, m + 1, path);
      |c| <= |d| && (|c| < |d| ==> |d| <= |r| && r[|c|..|d|] == d[|c|..])
  {
    var d := MergePair(c, src, m, path);
    if |d| > |c| {
      var r := MergePairs(d, src, m + 1, path);
      PairsKeepPlace(d, src, m + 1, path, Pairs(c));
      assert KeyAt(d, Pairs(c)) == KeyAt(src.content, m);
      assert r[|c|..|d|] == [KeyAt(r, Pairs(c)), ValueAt(r, Pairs(c))];
    }
  }

  lemma LaterAdded(c: seq<Node>, src: Node, m: nat, path: seq<string>)
    requires m < Pairs(src.content) && DistinctKeys(src.content) && |c| % 2 == 0
    ensures Added(c, src, m + 1, path) == Added(MergePair(c, src, m, path), src, m + 1, path)
  {
    var d := MergePair(c, src, m, path);
    forall i | m + 1 <= i < Pairs(src.content)
      ensures Lookup(c, KeyAt(src.content, i).value) == Lookup(d, KeyAt(src.content, i).value)
    {
      PairLookup(c, src, m, path, KeyAt(src.content, i).value);
    }
    AddedDependsOnLookups(c, d, src, m + 1, path);
  }

  lemma Consecutive<T>(r: seq<T>, i: nat, j: nat)
    requires i <= j <= |r|
    ensures r[i..] == r[i..j] + r[j..]
  {
  }

  /** What follows the user's pairs are the generated pairs the user's mapping lacked, without the
      defaults, in the generated order. */
  lemma {:induction false} NewPairsFollow(c: seq<Node>, src: Node, m: nat, path: seq<string>)
    requires m <= Pairs(src.content) && DistinctKeys(src.content) && |c| % 2 == 0
    ensures |MergePairs(c, src, m, path)| >= |c|
    ensures MergePairs(c, src, m, path)[|c|..] == Added(c, src, m, path)
    decreases Pairs(src.content) - m
  {
    if m < Pairs(src.content) {
      var d := MergePair(c, src, m, path);
      LaterAdded(c, src, m, path);
      PairLookup(c, src, m, path, "");
      NewPairsFollow(d, src, m + 1, path);
      NewPairStays(c, src, m, path);
      Consecutive(MergePairs(d, src, m + 1, path), |c|, |d|);
      var key, value := KeyAt(src.content, m), ValueAt(src.content, m);
      if |d| > |c| {
        assert d[|c|..] == [key, Prune(path + [key.value], value)];
      }
    }
  }

  /** The generated tree meets mappings all the way down `p`, until it has nothing to say. */
  ghost predicate MeetsMappings(src: Node, p: seq<Step>) {
    p == []
    || (p[0].Key? && src.kind == Mapping
        && (Child(src, p[0]).None? || MeetsMappings(Child(src, p[0]).value, p[1..])))
  }

  /** Away from sequences every node of the user's tree is still the node at its path, and what the
      generated tree does not mention is untouched. */
  lemma {:induction false} NodesStay(dst: Node, src: Node, p: seq<Step>, path: seq<string>)
    requires Paired(dst) && Proper(src) && MeetsMappings(src, p) && Find(dst, p).Some?
    ensures var now := Find(Merge(dst, src, path), p);
      now.Some? && now.value.origin == Find(dst, p).value.origin
      && (Find(src, p).None? ==> now == Find(dst, p))
    decreases |p|
  {
    if p != [] {
      var k := p[0].key;
      PairsLookup(dst.content, src, 0, path, k);
      if Lookup(src.content, k).Some? {
        NodesStay(Lookup(dst.content, k).value, Lookup(src.content, k).value, p[1..], path + [k]);
      }
    }
  }

  /** A merged sequence is as long as the generated one; each element is the old node it
      corresponds to, or the generated one where none was left, and no old node is used twice. */
  lemma SequenceElements(dst: Node, src: Node, path: seq<string>, i: nat, k: nat)
    requires src.kind == Sequence && !KeepsNull(dst, src) && i <= k < |src.content|
    ensures var r := Merge(dst, src, path);
      var old_ := AsSequence(dst).content;
      var slot := SlotOf(dst, src, k);
      r.kind == Sequence && |r.content| == |src.content|
      && (if slot < 0
          then r.content[k] == src.content[k]
               && forall j: nat :: j < |old_| && Corresponds(old_[j], src.content[k]) ==>
                  exists e :: 0 <= e < k && SlotOf(dst, src, e) == j
          else r.content[k].origin == old_[slot].origin && Corresponds(old_[slot], src.content[k])
               && (i < k ==> SlotOf(dst, src, i) != slot))
  {
    var old_ := AsSequence(dst).content;
    var slots := Slots(old_, {}, src.content);
    MergedSlot(dst, src, path, k);
    SlotsAreMatches(old_, {}, src.content, k);
    var slot := SlotOf(dst, src, k);
    if slot < 0 {
      forall j: nat | j < |old_| && Corresponds(old_[j], src.content[k])
        ensures exists e :: 0 <= e < k && SlotOf(dst, src, e) == j
      {
        assert TakenBefore(slots, k, j);
        var e :| 0 <= e < k && slots[e] == j;
        assert SlotOf(dst, src, e) == j;
      }
    }
  }
}
