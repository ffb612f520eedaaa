/** Limits and normalisation of one replay chain, shared by the local and the Home cache. */
module ReplayItems {
  import opened Wrappers
  import opened Sequences
  import opened ReplayProtocol
  import F = ReplayItemFields

  /** `Invalid` is the error for a chain the normaliser refuses. */
  datatype Outcome = Invalid | Done(ok: bool)

  const MAX_ITEMS_PER_ENTRY := 4096
  const MAX_BYTES_PER_ENTRY := 16 * 1024 * 1024
  const MAX_SERIALIZED_BYTES := 24 * 1024 * 1024

  function TotalBytes(items: seq<Item>): nat {
    if items == [] then 0 else TotalBytes(items[..|items| - 1]) + |items[|items| - 1]|
  }

  /** A chain is kept whole or not at all. */
  ghost function Normalized(norm: Item -> Option<Item>, items: seq<Item>): Option<seq<Item>> {
    var kept := FilterMap(norm, items);
    if |items| > MAX_ITEMS_PER_ENTRY || TotalBytes(kept) > MAX_BYTES_PER_ENTRY || kept == [] then None
    else Some(kept)
  }

  lemma {:induction false} KeptBytesGrow(norm: Item -> Option<Item>, items: seq<Item>, i: nat)
    requires i <= |items|
    ensures TotalBytes(FilterMap(norm, items[..i])) <= TotalBytes(FilterMap(norm, items))
    ensures |FilterMap(norm, items)| <= |items|
    decreases |items|
  {
    if i == |items| {
      assert items[..i] == items;
      if items != [] { KeptBytesGrow(norm, items[..|items| - 1], |items| - 1); }
    } else {
      var front := items[..|items| - 1];
      assert front[..i] == items[..i];
      KeptBytesGrow(norm, front, i);
      KeepOne(norm, items);
    }
  }

  lemma KeepOne(norm: Item -> Option<Item>, items: seq<Item>)
    requires items != []
    ensures TotalBytes(FilterMap(norm, items[..|items| - 1])) <= TotalBytes(FilterMap(norm, items))
  {
    var rest := FilterMap(norm, items[..|items| - 1]);
    match norm(items[|items| - 1])
    case None =>
    case Some(item) => assert (rest + [item])[..|rest|] == rest;
  }

  /** Stops at the first item that takes the running total over the byte limit. */
  method Normalize(norm: Item -> Option<Item>, items: seq<Item>) returns (r: Option<seq<Item>>)
    ensures r == Normalized(norm, items)
  {
    if |items| > MAX_ITEMS_PER_ENTRY {
      return None;
    }
    var normalized: seq<Item> := [];
    var totalBytes := 0;
    for i := 0 to |items|
      invariant normalized == FilterMap(norm, items[..i])
      invariant totalBytes == TotalBytes(normalized) <= MAX_BYTES_PER_ENTRY
    {
      assert items[..i + 1][..i] == items[..i];
      match norm(items[i])
      case None =>
      case Some(item) =>
        totalBytes := totalBytes + |item|;
        assert (normalized + [item])[..|normalized|] == normalized;
        if totalBytes > MAX_BYTES_PER_ENTRY {
          KeptBytesGrow(norm, items, i + 1);
          return None;
        }
        normalized := normalized + [item];
    }
    assert items[..|items|] == items;
    r := if normalized == [] then None else Some(normalized);
  }

  type Fields = F.Fields

  /** `parse` reads the fields of a text, none from a text that is no object, and `render` writes fields:
      what normalising the fields of some text gives is read back from what is written of it. */
  ghost predicate ReadsBack(parse: Item -> Fields, render: Fields -> Item) {
    forall x :: F.Normalized(parse(x)).Some? ==>
      parse(render(F.Normalized(parse(x)).value)) == F.Normalized(parse(x)).value
  }

  /** The normaliser of one item as it is stored: read, normalise the fields, write. */
  function FieldNormalizer(parse: Item -> Fields, render: Fields -> Item): Item -> Option<Item> {
    item => match F.Normalized(parse(item))
            case None => None
            case Some(f) => Some(render(f))
  }

  lemma FieldNormalizerIsIdempotent(parse: Item -> Fields, render: Fields -> Item)
    requires ReadsBack(parse, render)
    ensures Idempotent(FieldNormalizer(parse, render))
    ensures forall x :: var item := FieldNormalizer(parse, render)(x);
      && (item.Some? <==> F.Normalized(parse(x)).Some?)
      && (item.Some? ==> parse(item.value) == F.Normalized(parse(x)).value)
  {
    var norm := FieldNormalizer(parse, render);
    forall x | norm(x).Some? ensures norm(norm(x).value) == norm(x) {
      F.ItemIsStable(parse(x));
    }
  }

  ghost predicate Idempotent(norm: Item -> Option<Item>) {
    forall x :: norm(x).Some? ==> norm(norm(x).value) == norm(x)
  }

  lemma {:induction false} KeptIsStable(norm: Item -> Option<Item>, items: seq<Item>)
    requires Idempotent(norm)
    ensures FilterMap(norm, FilterMap(norm, items)) == FilterMap(norm, items)
    decreases |items|
  {
    if items != [] {
      var rest := FilterMap(norm, items[..|items| - 1]);
      KeptIsStable(norm, items[..|items| - 1]);
      match norm(items[|items| - 1])
      case None =>
      case Some(item) =>
        assert (rest + [item])[..|rest|] == rest;
        assert norm(item) == Some(item);
    }
  }

  /** A chain the normaliser accepted is accepted again, unchanged, with no item dropped. */
  lemma NormalizedIsStable(norm: Item -> Option<Item>, items: seq<Item>)
    requires Idempotent(norm) && Normalized(norm, items).Some?
    ensures Normalized(norm, Normalized(norm, items).value) == Normalized(norm, items)
  {
    KeptIsStable(norm, items);
    KeptBytesGrow(norm, items, 0);
  }

  lemma {:induction false} TotalBytesAdds(a: seq<Item>, x: Item)
    ensures TotalBytes([]) == 0 && TotalBytes(a + [x]) == TotalBytes(a) + |x|
  {
    assert (a + [x])[..|a|] == a;
  }

  /** What the normaliser accepts and what comes out: a chain is refused exactly when it has more than 4096
      items, no acceptable one, or acceptable ones of more than 16 MiB; otherwise it is the acceptable
      items as normalised, all of them, in order. */
  lemma {:induction false} ChainIsWhole(norm: Item -> Option<Item>, items: seq<Item>) returns (positions: seq<nat>)
    ensures Normalized(norm, items).None? <==>
      || |items| > 4096
      || (forall n :: 0 <= n < |items| ==> norm(items[n]).None?)
      || TotalBytes(FilterMap(norm, items)) > 16777216
    ensures Normalized(norm, items).Some? ==>
      var chain := Normalized(norm, items).value;
      && |positions| == |chain| && TotalBytes(chain) <= 16777216
      && (forall i, j :: 0 <= i < j < |positions| ==> positions[i] < positions[j])
      && (forall i :: 0 <= i < |positions| ==>
            positions[i] < |items| && norm(items[positions[i]]) == Some(chain[i]))
      && (forall n :: 0 <= n < |items| && n !in positions ==> norm(items[n]).None?)
  {
    positions := FilterMapPositions(norm, items);
    if FilterMap(norm, items) != [] {
      assert norm(items[positions[0]]).Some?;
    }
  }
}
