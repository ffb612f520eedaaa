/** The stored form of a chain in the Home store: a JSON array of base64 strings, the first of
    which is the marker with the generation and the branch. */
module ReplayCodec {
  import opened Wrappers
  import opened Bytes
  import opened ReplayProtocol
  import opened ReplayItems

  type Text = seq<byte>

  const QUOTE: byte := 34
  const COMMA: byte := 44
  const PAD: byte := 61
  const OPEN: byte := 91
  const CLOSE: byte := 93

  // ---------------------------------------------------------------- base64

  type sextet = n: int | 0 <= n < 64

  function Letter(n: sextet): (c: byte)
    ensures c != PAD && c != QUOTE
    ensures SextetOf(c) == Some(n)
  {
    if n < 26 then (65 + n) as byte
    else if n < 52 then (71 + n) as byte
    else if n < 62 then (n - 4) as byte
    else if n == 62 then 43
    else 47
  }

  function SextetOf(c: byte): Option<sextet> {
    var n := c as int;
    if 65 <= n <= 90 then Some(n - 65)
    else if 97 <= n <= 122 then Some(n - 71)
    else if 48 <= n <= 57 then Some(n + 4)
    else if n == 43 then Some(62)
    else if n == 47 then Some(63)
    else None
  }

  /** Three bytes are four letters; one or two last bytes are padded. */
  function Encode64(s: Text): Text {
    if s == [] then []
    else if |s| == 1 then
      var a := s[0] as int;
      [Letter(a / 4), Letter(a % 4 * 16), PAD, PAD]
    else if |s| == 2 then
      var a, b := s[0] as int, s[1] as int;
      [Letter(a / 4), Letter(a % 4 * 16 + b / 16), Letter(b % 16 * 4), PAD]
    else
      var a, b, c := s[0] as int, s[1] as int, s[2] as int;
      [Letter(a / 4), Letter(a % 4 * 16 + b / 16), Letter(b % 16 * 4 + c / 64), Letter(c % 64)] + Encode64(s[3..])
  }

  function Decode64(t: Text): Option<Text> {
    if t == [] then Some([])
    else if |t| < 4 then None
    else
      match (SextetOf(t[0]), SextetOf(t[1]))
      case (Some(p), Some(q)) =>
        var first := (p * 4 + q / 16) as byte;
        if t[2] == PAD then
          if t[3] == PAD && |t| == 4 then Some([first]) else None
        else (
          match SextetOf(t[2])
          case None => None
          case Some(u) =>
            var second := (q % 16 * 16 + u / 4) as byte;
            if t[3] == PAD then if |t| == 4 then Some([first, second]) else None
            else
              match (SextetOf(t[3]), Decode64(t[4..]))
              case (Some(v), Some(rest)) => Some([first, second, (u % 4 * 64 + v) as byte] + rest)
              case _ => None
        )
      case _ => None
  }

  lemma {:induction false} Sextets(a: int, b: int, c: int)
    requires 0 <= a < 256 && 0 <= b < 256 && 0 <= c < 256
    ensures var p, q, u, v := a / 4, a % 4 * 16 + b / 16, b % 16 * 4 + c / 64, c % 64;
      q < 64 && u < 64 && p * 4 + q / 16 == a && q % 16 * 16 + u / 4 == b && u % 4 * 64 + v == c
  {
  }

  lemma {:induction false} LastByteDecodes(a: byte)
    ensures Decode64(Encode64([a])) == Some([a])
  {
    Sextets(a as int, 0, 0);
  }

  lemma {:induction false} LastTwoDecode(a: byte, b: byte)
    ensures Decode64(Encode64([a, b])) == Some([a, b])
  {
    Sextets(a as int, b as int, 0);
  }

  lemma {:induction false} ThreeDecode(a: byte, b: byte, c: byte, more: Text)
    requires Decode64(Encode64(more)) == Some(more)
    ensures Decode64(Encode64([a, b, c] + more)) == Some([a, b, c] + more)
  {
    var s := [a, b, c] + more;
    assert s[3..] == more;
    assert Encode64(s)[4..] == Encode64(more);
    Sextets(a as int, b as int, c as int);
  }

  lemma {:induction false} Decode64Inverts(s: Text)
    ensures Decode64(Encode64(s)) == Some(s)
    decreases |s|
  {
    if |s| == 1 {
      LastByteDecodes(s[0]);
      assert s == [s[0]];
    } else if |s| == 2 {
      LastTwoDecode(s[0], s[1]);
      assert s == [s[0], s[1]];
    } else if |s| > 2 {
      Decode64Inverts(s[3..]);
      ThreeDecode(s[0], s[1], s[2], s[3..]);
      assert s == [s[0], s[1], s[2]] + s[3..];
    }
  }

  lemma {:induction false} Group(a: byte, b: byte, c: byte)
    ensures var x, y, z := a as int, b as int, c as int;
      Encode64([a, b, c]) == [Letter(x / 4), Letter(x % 4 * 16 + y / 16), Letter(y % 16 * 4 + z / 64), Letter(z % 64)]
  {
    assert [a, b, c][3..] == [];
  }

  /** Some of the test vectors of RFC 4648, section 10, and one group from each part of its alphabet. */
  lemma {:induction false} Encode64Vectors()
    ensures Encode64([102]) == [90, 103, 61, 61] && Encode64([102, 111]) == [90, 109, 56, 61]
    ensures Encode64([0, 16, 131]) == [65, 66, 67, 68] && Encode64([105, 183, 29]) == [97, 98, 99, 100]
    ensures Encode64([211, 93, 183]) == [48, 49, 50, 51] && Encode64([251, 255, 191]) == [43, 47, 43, 47]
  {
    Group(0, 16, 131);
    Group(105, 183, 29);
    Group(211, 93, 183);
    Group(251, 255, 191);
  }

  lemma {:induction false} Encode64Length(s: Text)
    ensures |Encode64(s)| == (|s| + 2) / 3 * 4
    decreases |s|
  {
    if |s| > 2 {
      Encode64Length(s[3..]);
      assert (|s| - 1) / 3 + 1 == (|s| + 2) / 3;
    }
  }

  lemma {:induction false} Encode64HasNoQuote(s: Text)
    ensures QUOTE !in Encode64(s)
    decreases |s|
  {
    if |s| > 2 {
      Encode64HasNoQuote(s[3..]);
    }
  }

  // ---------------------------------------------------------------- the array of items

  function Until(s: Text, stop: byte): (n: nat)
    ensures n <= |s| && stop !in s[..n] && (n < |s| ==> s[n] == stop)
  {
    if s == [] || s[0] == stop then 0
    else
      assert s[..1 + Until(s[1..], stop)] == [s[0]] + s[1..][..Until(s[1..], stop)];
      1 + Until(s[1..], stop)
  }

  function Quoted(text: Text): Text {
    [QUOTE] + text + [QUOTE]
  }

  /** The items, with what closes or continues the array after each. */
  function WriteItems(items: seq<Item>): Text {
    if items == [] then []
    else Quoted(Encode64(items[0])) + [if |items| == 1 then CLOSE else COMMA] + WriteItems(items[1..])
  }

  function WriteArray(items: seq<Item>): Text {
    [OPEN] + if items == [] then [CLOSE] else WriteItems(items)
  }

  /** The empty array, and one with the items f and nothing. */
  lemma {:induction false} ArrayForm()
    ensures WriteArray([]) == [91, 93]
    ensures WriteArray([[102], []]) == [91, 34, 90, 103, 61, 61, 34, 44, 34, 34, 93]
  {
    Encode64Vectors();
    assert [[102 as byte], []][1..] == [[]];
    assert WriteItems([[]]) == [34, 34, 93];
  }

  function ReadItems(s: Text): Option<seq<Item>>
    decreases |s|
  {
    if s == [] || s[0] != QUOTE then None
    else
      var n := Until(s[1..], QUOTE);
      if n + 2 >= |s| then None
      else
        match Decode64(s[1..n + 1])
        case None => None
        case Some(item) =>
          if s[n + 2] == CLOSE then if |s| == n + 3 then Some([item]) else None
          else if s[n + 2] != COMMA then None
          else
            match ReadItems(s[n + 3..])
            case None => None
            case Some(rest) => Some([item] + rest)
  }

  function ReadArray(s: Text): Option<seq<Item>> {
    if s == [] || s[0] != OPEN then None
    else if s[1..] == [CLOSE] then Some([])
    else ReadItems(s[1..])
  }

  lemma {:induction false} UntilAt(a: Text, stop: byte, rest: Text)
    requires stop !in a
    ensures Until(a + [stop] + rest, stop) == |a|
  {
    if a != [] {
      assert (a + [stop] + rest)[1..] == a[1..] + [stop] + rest;
      UntilAt(a[1..], stop, rest);
    }
  }

  lemma {:induction false} FirstItemReads(item: Item, end: byte, rest: Text)
    ensures var s := Quoted(Encode64(item)) + [end] + rest;
      var n := |Encode64(item)|;
      |s| == n + 3 + |rest| && s[0] == QUOTE && Until(s[1..], QUOTE) == n && Decode64(s[1..n + 1]) == Some(item)
      && s[n + 2] == end && s[n + 3..] == rest
  {
    var e := Encode64(item);
    var s := Quoted(e) + [end] + rest;
    Encode64HasNoQuote(item);
    Decode64Inverts(item);
    assert s[1..] == e + [QUOTE] + ([end] + rest);
    UntilAt(e, QUOTE, [end] + rest);
    assert s[1..|e| + 1] == e;
  }

  lemma {:induction false} LastItemReads(item: Item)
    ensures ReadItems(WriteItems([item])) == Some([item])
  {
    FirstItemReads(item, CLOSE, []);
    assert WriteItems([item]) == Quoted(Encode64(item)) + [CLOSE] + [];
  }

  lemma {:induction false} ItemThenMore(s: Text, n: nat, item: Item, more: seq<Item>)
    requires |s| >= n + 3 && s[0] == QUOTE && Until(s[1..], QUOTE) == n && Decode64(s[1..n + 1]) == Some(item)
    requires s[n + 2] == COMMA && ReadItems(s[n + 3..]) == Some(more)
    ensures ReadItems(s) == Some([item] + more)
  {
  }

  lemma {:induction false} ItemsUnfold(item: Item, more: seq<Item>)
    requires more != []
    ensures WriteItems([item] + more) == Quoted(Encode64(item)) + [COMMA] + WriteItems(more)
  {
    assert ([item] + more)[1..] == more;
  }

  lemma {:induction false} AnotherItemReads(item: Item, more: seq<Item>)
    requires more != [] && ReadItems(WriteItems(more)) == Some(more)
    ensures ReadItems(WriteItems([item] + more)) == Some([item] + more)
  {
    FirstItemReads(item, COMMA, WriteItems(more));
    ItemThenMore(Quoted(Encode64(item)) + [COMMA] + WriteItems(more), |Encode64(item)|, item, more);
    ItemsUnfold(item, more);
  }

  lemma {:induction false} ItemsRead(items: seq<Item>)
    requires items != []
    ensures ReadItems(WriteItems(items)) == Some(items)
  {
    if |items| == 1 {
      LastItemReads(items[0]);
      assert items == [items[0]];
    } else {
      ItemsRead(items[1..]);
      AnotherItemReads(items[0], items[1..]);
      assert items == [items[0]] + items[1..];
    }
  }

  /** Every list of items is read back as it was written. */
  lemma {:induction false} ArrayReads(items: seq<Item>)
    ensures ReadArray(WriteArray(items)) == Some(items)
  {
    if items != [] {
      ItemsRead(items);
      assert WriteItems(items)[0] == QUOTE;
      assert WriteArray(items)[1..] == WriteItems(items);
    } else {
      assert WriteArray(items)[1..] == [CLOSE];
    }
  }

  // ---------------------------------------------------------------- the marker and the whole value

  function Ascii(s: string): Text {
    seq(|s|, i requires 0 <= i < |s| => if (s[i] as int) < 128 then s[i] as int as byte else 63)
  }

  const HEAD := "{\"type\":\"cpa_antigravity_replay_generation\",\"generation\":\""
  const MIDDLE := "\",\"branch\":\""
  const LIVE_TAIL := "\"}"
  const DELETED_TAIL := "\",\"deleted\":true}"

  const MAX_NONCE_LENGTH := 32

  /** Hexadecimal digits, or the fallback made of a word and a time. */
  predicate Nonce(t: Text) {
    t != [] && |t| <= MAX_NONCE_LENGTH
    && forall c :: c in t ==> 97 <= c <= 122 || 48 <= c <= 57 || c == 45
  }

  function Tail(deleted: bool): Text {
    Ascii(if deleted then DELETED_TAIL else LIVE_TAIL)
  }

  function Marker(generation: Text, branch: Text, deleted: bool): Item {
    Ascii(HEAD) + (generation + (Ascii(MIDDLE) + (branch + Tail(deleted))))
  }

  datatype HomeValue = HomeValue(items: seq<Item>, deleted: bool, generation: Text, branch: Text)

  function After(s: Text, prefix: Text): Option<Text> {
    if prefix <= s then Some(s[|prefix|..]) else None
  }

  function ReadMarker(m: Item): Option<HomeValue> {
    match After(m, Ascii(HEAD))
    case None => None
    case Some(r) =>
      var generation := r[..Until(r, QUOTE)];
      match After(r[|generation|..], Ascii(MIDDLE))
      case None => None
      case Some(q) =>
        var branch := q[..Until(q, QUOTE)];
        var tail := q[|branch|..];
        if tail == Tail(false) then Some(HomeValue([], false, generation, branch))
        else if tail == Tail(true) then Some(HomeValue([], true, generation, branch))
        else None
  }

  function Marshal(items: seq<Item>, generation: Text, branch: Text): Text {
    WriteArray([Marker(generation, branch, false)] + items)
  }

  function Tombstone(generation: Text, branch: Text): Text {
    WriteArray([Marker(generation, branch, true)])
  }

  /** A value without a marker is one of the older form: items only. */
  function DecodeValue(raw: Text): Option<HomeValue> {
    match ReadArray(raw)
    case None => None
    case Some(items) =>
      if items == [] || ReadMarker(items[0]).None? then Some(HomeValue(items, false, [], []))
      else Some(ReadMarker(items[0]).value.(items := items[1..]))
  }

  lemma {:induction false} AfterPrefix(prefix: Text, rest: Text)
    ensures After(prefix + rest, prefix) == Some(rest)
  {
    assert (prefix + rest)[|prefix|..] == rest;
  }

  lemma {:induction false} FieldReads(text: Text, rest: Text)
    requires Nonce(text) && rest != [] && rest[0] == QUOTE
    ensures var s := text + rest;
      s[..Until(s, QUOTE)] == text && s[|text|..] == rest
  {
    assert text + rest == text + [QUOTE] + rest[1..];
    UntilAt(text, QUOTE, rest[1..]);
    assert (text + rest)[..|text|] == text;
  }

  lemma {:induction false} TailsDiffer()
    ensures Tail(false) != Tail(true) && Tail(false)[..1] == Tail(true)[..1] == Ascii(MIDDLE)[..1] == [QUOTE]
  {
    assert |Tail(false)| == 2 && |Tail(true)| > 2;
  }

  lemma {:induction false} MarkerReads(generation: Text, branch: Text, deleted: bool)
    requires Nonce(generation) && Nonce(branch)
    ensures ReadMarker(Marker(generation, branch, deleted)) == Some(HomeValue([], deleted, generation, branch))
  {
    var tail := Tail(deleted);
    var q := branch + tail;
    var r := generation + (Ascii(MIDDLE) + q);
    TailsDiffer();
    AfterPrefix(Ascii(HEAD), r);
    FieldReads(generation, Ascii(MIDDLE) + q);
    AfterPrefix(Ascii(MIDDLE), q);
    FieldReads(branch, tail);
  }

  lemma {:induction false} MarkedReads(items: seq<Item>, deleted: bool, generation: Text, branch: Text)
    requires Nonce(generation) && Nonce(branch)
    ensures DecodeValue(WriteArray([Marker(generation, branch, deleted)] + items))
      == Some(HomeValue(items, deleted, generation, branch))
  {
    var marker := Marker(generation, branch, deleted);
    var all := [marker] + items;
    ArrayReads(all);
    MarkerReads(generation, branch, deleted);
    assert all[0] == marker && all[1..] == items;
  }

  /** What is written is read: the same items, generation and branch, and no tombstone. */
  lemma {:induction false} ValueReads(items: seq<Item>, generation: Text, branch: Text)
    requires Nonce(generation) && Nonce(branch)
    ensures DecodeValue(Marshal(items, generation, branch)) == Some(HomeValue(items, false, generation, branch))
  {
    MarkedReads(items, false, generation, branch);
  }

  lemma {:induction false} TombstoneReads(generation: Text, branch: Text)
    requires Nonce(generation) && Nonce(branch)
    ensures DecodeValue(Tombstone(generation, branch)) == Some(HomeValue([], true, generation, branch))
  {
    var marker := Marker(generation, branch, true);
    assert [marker] + [] == [marker];
    MarkedReads([], true, generation, branch);
  }

  /** Comparing stored bytes is comparing what they stand for: two values are the same bytes
      exactly when items, generation and branch agree, and no value is a tombstone's bytes. */
  lemma {:induction false} SameBytesSameValue(a: seq<Item>, g: Text, x: Text, b: seq<Item>, h: Text, y: Text)
    requires Nonce(g) && Nonce(h) && Nonce(x) && Nonce(y)
    ensures Marshal(a, g, x) == Marshal(b, h, y) <==> a == b && g == h && x == y
    ensures Tombstone(g, x) == Tombstone(h, y) <==> g == h && x == y
    ensures Marshal(a, g, x) != Tombstone(h, y)
  {
    ValueReads(a, g, x);
    ValueReads(b, h, y);
    TombstoneReads(g, x);
    TombstoneReads(h, y);
  }

  // ---------------------------------------------------------------- the size of a stored value

  lemma {:induction false} BytesOfFirst(item: Item, items: seq<Item>)
    ensures TotalBytes([item] + items) == |item| + TotalBytes(items)
  {
    if items == [] {
      assert [item] + items == [item] && [item][..0] == [];
      assert TotalBytes([item]) == TotalBytes([item][..0]) + |item|;
    } else {
      var front := items[..|items| - 1];
      BytesOfFirst(item, front);
      assert ([item] + items)[..|items|] == [item] + front;
    }
  }

  lemma {:induction false} WrittenLength(items: seq<Item>)
    ensures 3 * |WriteItems(items)| <= 4 * TotalBytes(items) + 17 * |items|
  {
    if items != [] {
      WrittenLength(items[1..]);
      BytesOfFirst(items[0], items[1..]);
      assert [items[0]] + items[1..] == items;
      Encode64Length(items[0]);
    }
  }

  /** Whatever chain the normaliser accepts, its stored form is within the limit that a read
      checks first. */
  lemma {:induction false} StoredFormFits(norm: Item -> Option<Item>, items: seq<Item>, generation: Text, branch: Text)
    requires Nonce(generation) && Nonce(branch) && Normalized(norm, items).Some?
    ensures |Marshal(Normalized(norm, items).value, generation, branch)| <= 24 * 1024 * 1024
  {
    var kept := Normalized(norm, items).value;
    KeptBytesGrow(norm, items, 0);
    var marker := Marker(generation, branch, false);
    assert |marker| <= 200;
    BytesOfFirst(marker, kept);
    WrittenLength([marker] + kept);
  }

  /** A read never rejects what a publish stored: the value is short enough, decodes to the very
      chain, and the chain normalises to itself. */
  lemma {:induction false} StoredChainIsServed(parse: Item -> Fields, render: Fields -> Item, items: seq<Item>,
                                               generation: Text, branch: Text)
    requires ReadsBack(parse, render) && Nonce(generation) && Nonce(branch)
    requires Normalized(FieldNormalizer(parse, render), items).Some?
    ensures var norm := FieldNormalizer(parse, render);
      var chain := Normalized(norm, items).value;
      var raw := Marshal(chain, generation, branch);
      |raw| <= MAX_SERIALIZED_BYTES
      && DecodeValue(raw) == Some(HomeValue(chain, false, generation, branch))
      && Normalized(norm, chain) == Some(chain)
  {
    var norm := FieldNormalizer(parse, render);
    FieldNormalizerIsIdempotent(parse, render);
    StoredFormFits(norm, items, generation, branch);
    ValueReads(Normalized(norm, items).value, generation, branch);
    NormalizedIsStable(norm, items);
  }
}
