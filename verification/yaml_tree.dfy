/** YAML node trees: what a node says, which values count as defaults, and how the elements of
    two sequences are matched. */
module YamlTree {
  import opened Wrappers
  import opened Texts

  datatype Kind = Unset | Document | Sequence | Mapping | Scalar

  /** The value of a node and everything below it. `origin` is the node of the user's file this
      is, or null for a node that is not part of that file. A mapping holds its keys and values
      in turn. */
  datatype Node = Node(origin: object?, kind: Kind, tag: string, value: string, content: seq<Node>)

  // ---------------------------------------------------------------- text

  function Lower(s: string): string {
    seq(|s|, i requires 0 <= i < |s| => if 'A' <= s[i] <= 'Z' then 'a' + (s[i] - 'A') else s[i])
  }

  function Join(path: seq<string>): string {
    if path == [] then "" else if |path| == 1 then path[0] else path[0] + "." + Join(path[1..])
  }

  // ---------------------------------------------------------------- mappings

  function Pairs(c: seq<Node>): nat {
    |c| / 2
  }

  function KeyAt(c: seq<Node>, m: nat): Node
    requires m < Pairs(c)
  {
    c[2 * m]
  }

  function ValueAt(c: seq<Node>, m: nat): Node
    requires m < Pairs(c)
  {
    c[2 * m + 1]
  }

  /** The first pair from `m` on with this key, or -1. */
  function FindPair(c: seq<Node>, key: string, m: nat): (r: int)
    requires m <= Pairs(c)
    ensures r == -1 || m <= r < Pairs(c)
    ensures r >= 0 ==> KeyAt(c, r).value == key
    ensures forall i :: m <= i < (if r < 0 then Pairs(c) else r) ==> KeyAt(c, i).value != key
    decreases Pairs(c) - m
  {
    if m == Pairs(c) then -1
    else if KeyAt(c, m).value == key then m
    else FindPair(c, key, m + 1)
  }

  function Lookup(c: seq<Node>, key: string): Option<Node> {
    var r := FindPair(c, key, 0);
    if r < 0 then None else Some(ValueAt(c, r))
  }

  lemma FoundAt(c: seq<Node>, key: string, m: nat)
    requires m < Pairs(c) && KeyAt(c, m).value == key
    requires forall i :: 0 <= i < m ==> KeyAt(c, i).value != key
    ensures FindPair(c, key, 0) == m && Lookup(c, key) == Some(ValueAt(c, m))
  {
  }

  lemma NotFound(c: seq<Node>, key: string)
    requires forall i :: 0 <= i < Pairs(c) ==> KeyAt(c, i).value != key
    ensures FindPair(c, key, 0) == -1 && Lookup(c, key) == None
  {
  }

  // ---------------------------------------------------------------- defaults

  const DEFAULT_PPROF_ADDR := "127.0.0.1:8316"
  const DEFAULT_PANEL_REPOSITORY := "https://github.com/router-for-me/Cli-Proxy-API-Management-Center"

  predicate IsZero(n: Node) {
    match n.kind
    case Scalar =>
      (n.tag == "!!bool" && n.value == "false")
      || ((n.tag == "!!int" || n.tag == "!!float") && (n.value == "0" || n.value == "0.0"))
      || (n.tag == "!!str" && n.value == "")
      || n.tag == "!!null"
    case Sequence => forall i :: 0 <= i < |n.content| ==> IsZero(n.content[i])
    case Mapping => forall m :: 0 <= m < Pairs(n.content) ==> IsZero(n.content[2 * m + 1])
    case _ => false
  }

  predicate KnownDefault(path: seq<string>, n: Node) {
    IsZero(n)
    || (path != [] && n.kind == Scalar && n.tag == "!!str" && DefaultText(Join(path)) == Some(n.value))
    || (path != [] && n.kind == Scalar && n.tag == "!!int" && Join(path) == "error-logs-max-files" && n.value == "10")
  }

  function DefaultText(fullPath: string): Option<string> {
    if fullPath == "pprof.addr" then Some(DEFAULT_PPROF_ADDR)
    else if fullPath == "remote-management.panel-github-repository" then Some(DEFAULT_PANEL_REPOSITORY)
    else if fullPath == "plugins.dir" then Some("plugins")
    else if fullPath == "routing.strategy" then Some("round-robin")
    else None
  }

  predicate EmptyCollection(n: Node) {
    (n.kind == Mapping || n.kind == Sequence) && n.content == []
  }

  /** A new value without its default-valued descendants. */
  function Prune(path: seq<string>, n: Node): Node
    decreases n, |n.content| + 1
  {
    match n.kind
    case Mapping => n.(content := PrunePairs(path, n, 0))
    case Sequence => n.(content := PruneElements(path, n, 0))
    case _ => n
  }

  function PrunePairs(path: seq<string>, n: Node, m: nat): seq<Node>
    requires m <= Pairs(n.content)
    decreases n, Pairs(n.content) - m
  {
    if m == Pairs(n.content) then []
    else
      var key, value := n.content[2 * m], n.content[2 * m + 1];
      var below := path + [key.value];
      (if KnownDefault(below, value) || EmptyCollection(Prune(below, value)) then []
       else [key, Prune(below, value)])
      + PrunePairs(path, n, m + 1)
  }

  function PruneElements(path: seq<string>, n: Node, i: nat): seq<Node>
    requires i <= |n.content|
    decreases n, |n.content| - i
  {
    if i == |n.content| then [] else [Prune(path, n.content[i])] + PruneElements(path, n, i + 1)
  }

  // ---------------------------------------------------------------- matching sequence elements

  const IDENTITY_KEYS := ["id", "name", "alias", "api-key", "api_key", "apikey", "key", "provider", "model"]

  /** The trimmed scalar under the first key that reads `key`, from pair `m` on. */
  function MappingScalar(c: seq<Node>, key: string, m: nat): string
    requires m <= Pairs(c)
    decreases Pairs(c) - m
  {
    if m == Pairs(c) then ""
    else if ValueAt(c, m).kind == Scalar && Lower(Trim(KeyAt(c, m).value)) == Lower(key)
    then Trim(ValueAt(c, m).value)
    else MappingScalar(c, key, m + 1)
  }

  function NamedIdentity(c: seq<Node>, keys: seq<string>): string {
    if keys == [] then ""
    else
      var v := MappingScalar(c, keys[0], 0);
      if v != "" then keys[0] + "=" + v else NamedIdentity(c, keys[1..])
  }

  function FirstScalarIdentity(c: seq<Node>, m: nat): string
    requires m <= Pairs(c)
    decreases Pairs(c) - m
  {
    if m == Pairs(c) then ""
    else if ValueAt(c, m).kind == Scalar && Trim(ValueAt(c, m).value) != ""
    then Lower(Trim(KeyAt(c, m).value)) + "=" + Trim(ValueAt(c, m).value)
    else FirstScalarIdentity(c, m + 1)
  }

  function Identity(n: Node): string {
    if n.kind != Mapping then ""
    else
      var named := NamedIdentity(n.content, IDENTITY_KEYS);
      if named != "" then named else FirstScalarIdentity(n.content, 0)
  }

  predicate SameStructure(a: Node, b: Node) {
    a.kind == b.kind
    && match a.kind
       case Mapping =>
         |a.content| == |b.content|
         && forall i :: 0 <= i < 2 * Pairs(a.content) ==> SameStructure(a.content[i], b.content[i])
       case Sequence =>
         |a.content| == |b.content|
         && forall i :: 0 <= i < |a.content| ==> SameStructure(a.content[i], b.content[i])
       case _ => Trim(a.value) == Trim(b.value)
  }

  /** Two elements that name the same thing. */
  predicate SameName(old_: Node, target: Node) {
    old_.kind == target.kind
    && ((target.kind == Mapping && Identity(target) != "" && Identity(old_) == Identity(target))
        || (target.kind == Scalar && Trim(target.value) != "" && Trim(old_.value) == Trim(target.value)))
  }

  predicate Corresponds(old_: Node, target: Node) {
    SameName(old_, target) || SameStructure(old_, target)
  }

  datatype Rule = ByName | ByStructure

  predicate Fits(rule: Rule, old_: Node, target: Node) {
    match rule
    case ByName => SameName(old_, target)
    case ByStructure => SameStructure(old_, target)
  }

  function FirstUnused(rule: Rule, original: seq<Node>, used: set<nat>, target: Node, i: nat): (r: int)
    requires i <= |original|
    ensures r == -1 || (i <= r < |original| && r as nat !in used && Fits(rule, original[r], target))
    ensures forall j: nat :: i <= j < (if r < 0 then |original| else r) && j !in used ==>
      !Fits(rule, original[j], target)
    decreases |original| - i
  {
    if i == |original| then -1
    else if i !in used && Fits(rule, original[i], target) then i
    else FirstUnused(rule, original, used, target, i + 1)
  }

  /** The old element that a new one takes over, or -1: a namesake if there is one left, else
      one of the same structure. */
  function MatchElement(original: seq<Node>, used: set<nat>, target: Node): (r: int)
    ensures r == -1 || (0 <= r < |original| && r as nat !in used && Corresponds(original[r], target))
    ensures r == -1 ==> forall j: nat :: j < |original| && j !in used ==> !Corresponds(original[j], target)
    ensures r >= 0 && !SameName(original[r], target) ==>
      forall j: nat :: j < |original| && j !in used ==> !SameName(original[j], target)
  {
    var named := FirstUnused(ByName, original, used, target, 0);
    if named >= 0 then named else FirstUnused(ByStructure, original, used, target, 0)
  }

  /** For each new element from the i-th on, the old element it takes over, or -1. */
  function Slots(original: seq<Node>, used: set<nat>, targets: seq<Node>): (slots: seq<int>)
    ensures |slots| == |targets|
    ensures forall i :: 0 <= i < |slots| ==> -1 <= slots[i] < |original|
    decreases |targets|
  {
    if targets == [] then []
    else
      var r := MatchElement(original, used, targets[0]);
      [r] + Slots(original, if r < 0 then used else used + {r as nat}, targets[1..])
  }

  /** `j` is the slot of an element before the i-th. */
  ghost predicate TakenBefore(slots: seq<int>, i: nat, j: int)
    requires i <= |slots|
  {
    exists k :: 0 <= k < i && slots[k] == j
  }

  lemma TakenShifts(first: int, later: seq<int>, i: nat, j: int)
    requires i <= |later|
    ensures TakenBefore([first] + later, i + 1, j) <==> j == first || TakenBefore(later, i, j)
  {
    var slots := [first] + later;
    assert slots[0] == first;
    if TakenBefore(later, i, j) {
      var k :| 0 <= k < i && later[k] == j;
      assert slots[k + 1] == j;
    }
  }

  /** Slot `i` is right: what it takes is not taken before and corresponds; it is new only when every
      corresponding old element is taken before, and structure decides only when every namesake is. */
  ghost predicate SlotSound(original: seq<Node>, used: set<nat>, target: Node, slots: seq<int>, i: nat)
    requires i < |slots| && -1 <= slots[i] < |original|
  {
    if slots[i] < 0 then
      forall j: nat :: j < |original| && j !in used && Corresponds(original[j], target) ==> TakenBefore(slots, i, j)
    else
      slots[i] as nat !in used && !TakenBefore(slots, i, slots[i])
      && Corresponds(original[slots[i]], target)
      && (SameName(original[slots[i]], target)
          || forall j: nat :: j < |original| && j !in used && SameName(original[j], target) ==>
               TakenBefore(slots, i, j))
  }

  lemma SoundShifts(original: seq<Node>, used: set<nat>, target: Node, first: int, later: seq<int>, i: nat)
    requires i < |later| && -1 <= later[i] < |original|
    requires SlotSound(original, if first < 0 then used else used + {first as nat}, target, later, i)
    ensures SlotSound(original, used, target, [first] + later, i + 1)
  {
    forall j: nat ensures TakenBefore([first] + later, i + 1, j) <==> j == first || TakenBefore(later, i, j) {
      TakenShifts(first, later, i, j);
    }
  }

  /** No old element is taken twice, and each new element gets a corresponding one if any is left. */
  lemma {:induction false} SlotsAreMatches(original: seq<Node>, used: set<nat>, targets: seq<Node>, i: nat)
    requires i < |targets|
    ensures SlotSound(original, used, targets[i], Slots(original, used, targets), i)
    decreases i
  {
    if i > 0 {
      var first := MatchElement(original, used, targets[0]);
      var now := if first < 0 then used else used + {first as nat};
      SlotsAreMatches(original, now, targets[1..], i - 1);
      SoundShifts(original, used, targets[i], first, Slots(original, now, targets[1..]), i - 1);
    }
  }

  // ---------------------------------------------------------------- nothing here looks at origins

  /** The same tree, whoever its nodes belong to. */
  ghost predicate Alike(a: Node, b: Node) {
    a.kind == b.kind && a.tag == b.tag && a.value == b.value && AllAlike(a.content, b.content)
  }

  ghost predicate AllAlike(a: seq<Node>, b: seq<Node>) {
    |a| == |b| && forall i :: 0 <= i < |a| ==> Alike(a[i], b[i])
  }

  lemma {:induction false} ZeroAlike(a: Node, b: Node)
    requires Alike(a, b)
    ensures IsZero(a) == IsZero(b)
  {
    forall i | 0 <= i < |a.content| ensures IsZero(a.content[i]) == IsZero(b.content[i]) {
      ZeroAlike(a.content[i], b.content[i]);
    }
  }

  lemma DefaultAlike(path: seq<string>, a: Node, b: Node)
    requires Alike(a, b)
    ensures KnownDefault(path, a) == KnownDefault(path, b)
  {
    ZeroAlike(a, b);
  }

  lemma {:induction false} StructureAlike(a: Node, b: Node, c: Node, d: Node)
    requires Alike(a, b) && Alike(c, d)
    ensures SameStructure(a, c) == SameStructure(b, d)
  {
    if |a.content| == |c.content| {
      forall i | 0 <= i < |a.content|
        ensures SameStructure(a.content[i], c.content[i]) == SameStructure(b.content[i], d.content[i])
      {
        StructureAlike(a.content[i], b.content[i], c.content[i], d.content[i]);
      }
    }
  }

  lemma {:induction false} ScalarAlike(a: seq<Node>, b: seq<Node>, key: string, m: nat)
    requires AllAlike(a, b) && m <= Pairs(a)
    ensures MappingScalar(a, key, m) == MappingScalar(b, key, m)
    ensures FirstScalarIdentity(a, m) == FirstScalarIdentity(b, m)
    decreases Pairs(a) - m
  {
    if m < Pairs(a) {
      assert Alike(KeyAt(a, m), KeyAt(b, m)) && Alike(ValueAt(a, m), ValueAt(b, m));
      ScalarAlike(a, b, key, m + 1);
    }
  }

  lemma {:induction false} NamedAlike(a: seq<Node>, b: seq<Node>, keys: seq<string>)
    requires AllAlike(a, b)
    ensures NamedIdentity(a, keys) == NamedIdentity(b, keys)
  {
    if keys != [] {
      ScalarAlike(a, b, keys[0], 0);
      NamedAlike(a, b, keys[1..]);
    }
  }

  lemma IdentityAlike(a: Node, b: Node)
    requires Alike(a, b)
    ensures Identity(a) == Identity(b)
  {
    NamedAlike(a.content, b.content, IDENTITY_KEYS);
    ScalarAlike(a.content, b.content, "", 0);
  }

  lemma FitsAlike(rule: Rule, a: Node, b: Node, c: Node, d: Node)
    requires Alike(a, b) && Alike(c, d)
    ensures Fits(rule, a, c) == Fits(rule, b, d)
  {
    StructureAlike(a, b, c, d);
    IdentityAlike(a, b);
    IdentityAlike(c, d);
  }

  lemma {:induction false} FirstUnusedAlike(rule: Rule, a: seq<Node>, b: seq<Node>, used: set<nat>, c: Node,
                                            d: Node, i: nat)
    requires AllAlike(a, b) && Alike(c, d) && i <= |a|
    ensures FirstUnused(rule, a, used, c, i) == FirstUnused(rule, b, used, d, i)
    decreases |a| - i
  {
    if i < |a| {
      FitsAlike(rule, a[i], b[i], c, d);
      FirstUnusedAlike(rule, a, b, used, c, d, i + 1);
    }
  }

  lemma MatchAlike(a: seq<Node>, b: seq<Node>, used: set<nat>, c: Node, d: Node)
    requires AllAlike(a, b) && Alike(c, d)
    ensures MatchElement(a, used, c) == MatchElement(b, used, d)
  {
    FirstUnusedAlike(ByName, a, b, used, c, d, 0);
    FirstUnusedAlike(ByStructure, a, b, used, c, d, 0);
  }
}
