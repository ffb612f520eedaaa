/** The item list of one Codex agent: turns, each led by a marker, appended one at a time and
    trimmed from the front to a bounded number of turns and bytes. */
module CodexTurns {
  import opened Sequences

  const MAX_TURNS := 256
  const MAX_BYTES := 16 * 1024 * 1024

  /** A stored item is its serialised text; the type and id read from it decide the case. */
  datatype Item = Marker(id: string, text: string) | Other(text: string)

  type Items = seq<Item>

  // ---------------------------------------------------------------- measures

  function Bytes(items: Items): nat {
    if items == [] then 0 else |items[0].text| + Bytes(items[1..])
  }

  function Markers(items: Items): nat {
    if items == [] then 0 else (if items[0].Marker? then 1 else 0) + Markers(items[1..])
  }

  /** The first item opens a turn whether or not it is a marker. */
  function TurnCount(items: Items): nat {
    if items == [] then 1 else 1 + Markers(items[1..])
  }

  predicate Legal(items: Items) {
    TurnCount(items) <= MAX_TURNS && Bytes(items) <= MAX_BYTES
  }

  /** Positions in the rest of a list, as positions in the list. */
  lemma Moved(items: Items, rest: seq<nat>) returns (at: seq<nat>)
    requires items != [] && forall i, j :: 0 <= i < j < |rest| ==> rest[i] < rest[j]
    requires forall n: nat :: n in rest <==> n < |items[1..]| && items[1..][n].Marker?
    ensures |at| == |rest| && forall i, j :: 0 <= i < j < |at| ==> at[i] < at[j]
    ensures forall n: nat :: n in at <==> 1 <= n < |items| && items[n].Marker?
  {
    at := seq(|rest|, i requires 0 <= i < |rest| => rest[i] + 1);
    forall i | 0 <= i < |rest|
      ensures 1 <= at[i] < |items| && items[at[i]].Marker?
    {
      assert rest[i] in rest;
    }
    forall n: nat | 1 <= n < |items| && items[n].Marker?
      ensures n in at
    {
      assert n - 1 in rest;
      var i :| 0 <= i < |rest| && rest[i] == n - 1;
      assert at[i] == n;
    }
  }

  /** Where the markers are. */
  lemma {:induction false} MarkersCount(items: Items) returns (at: seq<nat>)
    ensures |at| == Markers(items)
    ensures forall i, j :: 0 <= i < j < |at| ==> at[i] < at[j]
    ensures forall n: nat :: n in at <==> n < |items| && items[n].Marker?
  {
    if items == [] {
      return [];
    }
    var rest := MarkersCount(items[1..]);
    var moved := Moved(items, rest);
    at := (if items[0].Marker? then [0] else []) + moved;
    assert forall n: nat :: n in at <==> (n == 0 && items[0].Marker?) || n in moved;
    forall j | 0 <= j < |moved|
      ensures 1 <= moved[j]
    {
      assert moved[j] in moved;
    }
  }

  /** The two bounds: at most 256 turns, where every marker after the first item opens one, and 16 MiB. */
  lemma {:induction false} LegalExactly(items: Items) returns (starts: seq<nat>)
    ensures forall i, j :: 0 <= i < j < |starts| ==> starts[i] < starts[j]
    ensures forall n: nat :: n in starts <==> 1 <= n < |items| && items[n].Marker?
    ensures Legal(items) <==> |starts| <= 255 && Bytes(items) <= 16777216
  {
    if items == [] {
      return [];
    }
    var rest := MarkersCount(items[1..]);
    starts := Moved(items, rest);
  }

  predicate Boundary(items: Items, s: nat) {
    s == 0 || (s < |items| && items[s].Marker?)
  }

  predicate LegalFrom(items: Items, s: nat) {
    s <= |items| && Boundary(items, s) && Legal(items[s..])
  }

  /** The longest suffix that starts at a turn boundary and respects both bounds begins at `s`;
      it is empty when even the last turn is too large. */
  ghost predicate LongestAt(items: Items, s: nat) {
    s <= |items| && NoneLegalBefore(items, s) && (LegalFrom(items, s) || s == |items|)
  }

  ghost predicate IsLongestLegal(items: Items, r: Items) {
    exists s: nat :: LongestAt(items, s) && r == items[s..]
  }

  ghost predicate NoneLegalBefore(items: Items, s: nat) {
    forall q: nat :: q < s ==> !LegalFrom(items, q)
  }

  // ---------------------------------------------------------------- trimming

  /** The second turn start, or the length when there is none. */
  function SecondStart(items: Items, from: nat): (s: nat)
    requires from <= |items|
    ensures from <= s <= |items|
    ensures s < |items| ==> items[s].Marker?
    ensures forall q :: from <= q < s ==> !items[q].Marker?
    decreases |items| - from
  {
    if from == |items| || items[from].Marker? then from else SecondStart(items, from + 1)
  }

  function Trim(items: Items): Items
    decreases |items|
  {
    if Legal(items) then items
    else
      var s := if items == [] then 0 else SecondStart(items, 1);
      if s == |items| then [] else Trim(items[s..])
  }

  lemma {:induction false} BytesConcat(a: Items, b: Items)
    ensures Bytes(a + b) == Bytes(a) + Bytes(b)
    ensures Markers(a + b) == Markers(a) + Markers(b)
  {
    if a == [] {
      assert a + b == b;
    } else {
      assert (a + b)[1..] == a[1..] + b;
      BytesConcat(a[1..], b);
    }
  }

  /** The bookkeeping of the loop: the starts collected so far and their byte total. */
  ghost predicate Counted(items: Items, n: nat, starts: seq<int>, total: nat)
    requires n <= |items|
  {
    && total == Bytes(items[..n])
    && |starts| == 1 + (if n == 0 then 0 else Markers(items[1..n]))
    && starts[0] == 0
    && (|starts| == 1 ==> forall q :: 1 <= q < n ==> !items[q].Marker?)
    && (|starts| > 1 ==> 1 <= starts[1] < n && items[starts[1]].Marker?
                         && forall q :: 1 <= q < starts[1] ==> !items[q].Marker?)
  }

  lemma CountedNext(items: Items, n: nat, starts: seq<int>, total: nat)
    requires n < |items| && Counted(items, n, starts, total)
    ensures Counted(items, n + 1,
                    if n > 0 && items[n].Marker? then starts + [n] else starts,
                    total + |items[n].text|)
  {
    assert items[..n + 1] == items[..n] + [items[n]];
    BytesConcat(items[..n], [items[n]]);
    if n > 0 {
      assert items[1..n + 1] == items[1..n] + [items[n]];
      BytesConcat(items[1..n], [items[n]]);
    }
  }

  method TrimItems(input: Items) returns (items: Items)
    ensures items == Trim(input)
  {
    items := input;
    while true
      invariant Trim(items) == Trim(input)
      decreases |items|
    {
      var turnStarts: seq<int> := [0];
      var totalBytes: nat := 0;
      for index := 0 to |items|
        invariant Counted(items, index, turnStarts, totalBytes)
      {
        CountedNext(items, index, turnStarts, totalBytes);
        totalBytes := totalBytes + |items[index].text|;
        if index > 0 && items[index].Marker? {
          turnStarts := turnStarts + [index];
        }
      }
      assert items[..|items|] == items;
      assert items != [] ==> items[1..|items|] == items[1..];
      if |turnStarts| <= MAX_TURNS && totalBytes <= MAX_BYTES {
        return;
      }
      if |turnStarts| <= 1 {
        return [];
      }
      items := items[turnStarts[1]..];
    }
  }

  /** Leading turns that are not legal starts do not matter. */
  lemma {:induction false} TrimSkips(items: Items, k: nat)
    requires k < |items| && Boundary(items, k) && NoneLegalBefore(items, k)
    ensures Trim(items) == Trim(items[k..])
    decreases |items|
  {
    if k == 0 {
      assert items[0..] == items;
    } else {
      assert items[0..] == items && !LegalFrom(items, 0);
      var s := SecondStart(items, 1);
      var rest := items[s..];
      forall q: nat | q < k - s ensures !LegalFrom(rest, q) {
        assert rest[q..] == items[s + q..] && !LegalFrom(items, s + q);
      }
      assert rest[k - s..] == items[k..];
      TrimSkips(rest, k - s);
    }
  }

  /** What trimming means, independently of how it is done. */
  lemma {:induction false} TrimIsLongestLegal(items: Items) returns (s: nat)
    ensures LongestAt(items, s) && Trim(items) == items[s..]
    ensures Legal(Trim(items)) && IsLongestLegal(items, Trim(items))
    decreases |items|
  {
    assert items[0..] == items;
    if Legal(items) {
      return 0;
    }
    var start := SecondStart(items, 1);
    if start == |items| {
      return start;
    }
    var rest := items[start..];
    var t := TrimIsLongestLegal(rest);
    s := start + t;
    assert items[s..] == rest[t..];
    forall q: nat | q < s ensures !LegalFrom(items, q) {
      if start <= q { assert items[q..] == rest[q - start..] && !LegalFrom(rest, q - start); }
    }
  }

  /** Being the longest legal suffix determines the result. */
  lemma LongestLegalIsUnique(items: Items, r: Items)
    requires IsLongestLegal(items, r)
    ensures r == Trim(items)
  {
    var s: nat :| LongestAt(items, s) && r == items[s..];
    var t := TrimIsLongestLegal(items);
    assert s < t ==> LegalFrom(items, s);
  }

  // ---------------------------------------------------------------- appending a turn

  predicate HasTurn(items: Items, id: string) {
    exists i :: 0 <= i < |items| && items[i].Marker? && items[i].id == id
  }

  /** Lists that do not start at a marker are discarded. */
  function Base(existing: Items): Items {
    if existing != [] && !existing[0].Marker? then [] else existing
  }

  function TurnId(turn: Items): string {
    if turn != [] && turn[0].Marker? then turn[0].id else ""
  }

  function Appended(existing: Items, turn: Items): Items {
    var base := Base(existing);
    if TurnId(turn) != "" && HasTurn(base, TurnId(turn)) then Trim(base) else Trim(base + turn)
  }

  /** Which items an append trims: the turn alone after a list that does not open with a marker, the list
      alone when it holds the marker of a named turn already, and otherwise both. */
  lemma AppendExactly(existing: Items, turn: Items)
    ensures IsLongestLegal(
      if existing != [] && existing[0].Other? then turn
      else if turn != [] && turn[0].Marker? && turn[0].id != ""
              && exists i :: 0 <= i < |existing| && existing[i].Marker? && existing[i].id == turn[0].id
      then existing
      else existing + turn,
      Appended(existing, turn))
  {
    if existing != [] && existing[0].Other? {
      assert [] + turn == turn;
      var _ := TrimIsLongestLegal(turn);
    } else if TurnId(turn) != "" && HasTurn(existing, TurnId(turn)) {
      var _ := TrimIsLongestLegal(existing);
    } else {
      var _ := TrimIsLongestLegal(existing + turn);
    }
  }

  method AppendTurn(existing: Items, turn: Items) returns (r: Items)
    ensures r == Appended(existing, turn)
  {
    var base := existing;
    if |base| > 0 && !base[0].Marker? {
      base := [];
    }
    var turnID := "";
    if |turn| > 0 && turn[0].Marker? {
      turnID := turn[0].id;
    }
    if turnID != "" {
      for i := 0 to |base|
        invariant forall q :: 0 <= q < i ==> !(base[q].Marker? && base[q].id == turnID)
      {
        if base[i].Marker? && base[i].id == turnID {
          r := TrimItems(base);
          return;
        }
      }
    }
    r := TrimItems(base + turn);
  }

  // ---------------------------------------------------------------- what trimming keeps

  lemma SuffixesShrink(items: Items, t: Items)
    requires Legal(items + t) && (items != [] || t == [] || t[0].Marker?)
    ensures Legal(items)
    ensures items != [] && t != [] && t[0].Marker? ==> Legal(t)
  {
    BytesConcat(items, t);
    if items != [] {
      assert (items + t)[1..] == items[1..] + t;
      BytesConcat(items[1..], t);
    }
  }

  lemma MoreItemsDoNotHelp(x: Items, t: Items, q: nat)
    requires q < |x| && !LegalFrom(x, q)
    ensures !LegalFrom(x + t, q)
  {
    assert (x + t)[q..] == x[q..] + t;
    if LegalFrom(x + t, q) { SuffixesShrink(x[q..], t); }
  }

  lemma {:induction false} SliceOfBoth(x: Items, t: Items, s: nat)
    requires s <= |x|
    ensures (x + t)[s..] == x[s..] + t
  {
  }

  /** Trimming first and appending then trimming again equals trimming once at the end, as long as
      what is appended starts at a marker or something was left to append it to. */
  lemma TrimComposes(x: Items, t: Items)
    requires x == [] || Trim(x) != [] || (t != [] && t[0].Marker?)
    ensures Trim(Trim(x) + t) == Trim(x + t)
  {
    var s := TrimIsLongestLegal(x);
    SliceOfBoth(x, t, s);
    forall q: nat | q < s ensures !LegalFrom(x + t, q) {
      MoreItemsDoNotHelp(x, t, q);
    }
    if s < |x + t| {
      TrimSkips(x + t, s);
    }
  }

  /** A legal turn led by a marker survives whole at the end of whatever it is appended to. */
  lemma AppendedTurnSurvives(x: Items, t: Items)
    requires t != [] && t[0].Marker? && Legal(t)
    ensures |t| <= |Trim(x + t)| && Trim(x + t)[|Trim(x + t)| - |t|..] == t
  {
    var s := TrimIsLongestLegal(x + t);
    assert (x + t)[|x|..] == t;
    assert LegalFrom(x + t, |x|);
    assert Trim(x + t) == x[s..] + t;
  }

  lemma TrimStartsAtBoundary(x: Items)
    requires x == [] || x[0].Marker?
    ensures Trim(x) == [] || Trim(x)[0].Marker?
  {
    var _ := TrimIsLongestLegal(x);
  }

  // ---------------------------------------------------------------- appending twice

  /** What the normaliser passes on as one completed turn: it fits, and its marker is named. */
  predicate NamedTurn(t: Items) {
    t != [] && t[0].Marker? && t[0].id != "" && Legal(t)
  }

  /** A marker with this id from which the rest of the list respects both bounds. */
  predicate HasLegalTurn(items: Items, id: string) {
    exists i :: 0 <= i < |items| && items[i].Marker? && items[i].id == id && Legal(items[i..])
  }

  lemma SuffixIsLegal(r: Items, i: nat)
    requires Legal(r) && i < |r| && r[i].Marker?
    ensures Legal(r[i..])
  {
    assert r == r[..i] + r[i..];
    SuffixesShrink(r[..i], r[i..]);
  }

  lemma KeptTurnIsLegal(x: Items, id: string)
    requires HasTurn(Trim(x), id)
    ensures HasLegalTurn(x, id)
  {
    var s := TrimIsLongestLegal(x);
    var r := Trim(x);
    var i :| 0 <= i < |r| && r[i].Marker? && r[i].id == id;
    SuffixIsLegal(r, i);
    assert x[s..][i..] == x[s + i..];
    assert x[s + i] == r[i];
  }

  lemma LegalTurnIsKept(x: Items, id: string)
    requires HasLegalTurn(x, id)
    ensures HasTurn(Trim(x), id)
  {
    var s := TrimIsLongestLegal(x);
    var i :| 0 <= i < |x| && x[i].Marker? && x[i].id == id && Legal(x[i..]);
    assert LegalFrom(x, i) && s <= i;
    assert Trim(x)[i - s] == x[i];
  }

  /** Trimming keeps a marker exactly when the list from it on respects the bounds. */
  lemma TrimKeepsTurn(x: Items, id: string)
    ensures HasTurn(Trim(x), id) <==> HasLegalTurn(x, id)
  {
    if HasTurn(Trim(x), id) {
      KeptTurnIsLegal(x, id);
    }
    if HasLegalTurn(x, id) {
      LegalTurnIsKept(x, id);
    }
  }

  /** Recording the same turn again changes nothing, except where the list already holds its marker
      but is over its bounds from every such marker on. */
  lemma AppendIsIdempotent(existing: Items, t: Items)
    requires NamedTurn(t)
    ensures Appended(Appended(existing, t), t) == Appended(existing, t)
       <==> (HasTurn(Base(existing), TurnId(t)) ==> HasLegalTurn(Base(existing), TurnId(t)))
    ensures Legal(existing) ==> Appended(Appended(existing, t), t) == Appended(existing, t)
  {
    var base := Base(existing);
    var r := Appended(existing, t);
    TrimKeepsTurn(base, TurnId(t));
    if HasTurn(base, TurnId(t)) {
      TrimStartsAtBoundary(base);
      var _ := TrimIsLongestLegal(base);
      if !HasTurn(r, TurnId(t)) {
        AppendKeepsTurn(r, t);
      }
    } else {
      AppendKeepsTurn(base, t);
      TrimStartsAtBoundary(base + t);
      var _ := TrimIsLongestLegal(base + t);
    }
  }

  lemma AppendKeepsTurn(base: Items, t: Items)
    requires NamedTurn(t)
    ensures HasTurn(Trim(base + t), TurnId(t))
  {
    AppendedTurnSurvives(base, t);
    var r := Trim(base + t);
    assert r[|r| - |t|] == r[|r| - |t|..][0];
  }

  /** The exception is real: the marker looked for is trimmed away by the very call that found it. */
  lemma UntrimmedAppendIsNotIdempotent(id: string, last: string, text: string)
    requires id != "" && last != id && |text| == MAX_BYTES + 1
    ensures var t, existing := [Marker(id, "")], [Marker(id, text), Marker(last, "")];
            && NamedTurn(t)
            && Appended(existing, t) == [Marker(last, "")]
            && Appended(Appended(existing, t), t) == [Marker(last, ""), Marker(id, "")]
  {
    var t, existing, rest := [Marker(id, "")], [Marker(id, text), Marker(last, "")], [Marker(last, "")];
    assert t[1..] == [] && rest[1..] == [] && existing[1..] == rest;
    assert Bytes(rest) == 0;
    assert Bytes(existing) == |existing[0].text| + Bytes(existing[1..]) == MAX_BYTES + 1;
    assert existing[0].id == id && HasTurn(existing, id);
    assert Trim(existing) == Trim(rest) == rest;
    assert (rest + t)[1..] == t && Bytes(t) == 0 && Markers(t) == 1;
    assert Trim(rest + t) == rest + t;
  }

  // ---------------------------------------------------------------- the whole history

  /** One completed turn: a named marker at its head and no other marker. */
  predicate OneTurn(t: Items) {
    NamedTurn(t) && forall i :: 1 <= i < |t| ==> !t[i].Marker?
  }

  function Concat(turns: seq<Items>): Items {
    if turns == [] then [] else Concat(turns[..|turns| - 1]) + turns[|turns| - 1]
  }

  function FoldAppends(base: Items, turns: seq<Items>): Items {
    if turns == [] then base else Appended(FoldAppends(base, turns[..|turns| - 1]), turns[|turns| - 1])
  }

  /** What the appends have to account for: everything appended, without the turns that were already
      stored when they came, and starting again with a turn that found nothing to be appended to. */
  function History(base: Items, turns: seq<Items>): Items {
    if turns == [] then base
    else
      var front, t := turns[..|turns| - 1], turns[|turns| - 1];
      var stored := Base(FoldAppends(base, front));
      if TurnId(t) != "" && HasTurn(stored, TurnId(t)) then History(base, front)
      else if stored == [] then t
      else History(base, front) + t
  }

  /** Whatever is appended to whatever list, the cache holds exactly what one trim of the whole history
      would leave. */
  lemma {:induction false} AppendsEqualOneTrim(base: Items, turns: seq<Items>)
    requires turns != [] || Legal(base)
    ensures FoldAppends(base, turns) == Trim(History(base, turns))
    decreases |turns|
  {
    if turns != [] {
      var front, t := turns[..|turns| - 1], turns[|turns| - 1];
      var stored := FoldAppends(base, front);
      if front != [] || Legal(base) {
        AppendsEqualOneTrim(base, front);
        var _ := TrimIsLongestLegal(History(base, front));
        if Base(stored) != [] {
          TrimComposes(History(base, front), t);
        }
      }
      assert [] + t == t;
    }
  }

  /** The turns that were not already stored when they came. */
  function Recorded(base: Items, turns: seq<Items>): seq<Items> {
    if turns == [] then []
    else
      var front, t := turns[..|turns| - 1], turns[|turns| - 1];
      if HasTurn(FoldAppends(base, front), TurnId(t)) then Recorded(base, front) else Recorded(base, front) + [t]
  }

  predicate Named(turns: seq<Items>) {
    forall i :: 0 <= i < |turns| ==> NamedTurn(turns[i])
  }

  /** A list as the cache holds it when every turn is led by a marker. */
  predicate Sound(items: Items) {
    Legal(items) && (items == [] || items[0].Marker?)
  }

  lemma AppendKeepsSound(e: Items, t: Items)
    requires Sound(e) && NamedTurn(t)
    ensures Sound(Appended(e, t)) && Appended(e, t) != []
  {
    var _ := TrimIsLongestLegal(e + t);
    TrimStartsAtBoundary(e + t);
    AppendKeepsTurn(e, t);
  }

  lemma {:induction false} FoldKeepsSound(base: Items, turns: seq<Items>)
    requires Sound(base) && Named(turns)
    ensures Sound(FoldAppends(base, turns)) && (turns != [] ==> FoldAppends(base, turns) != [])
    decreases |turns|
  {
    if turns != [] {
      var front := turns[..|turns| - 1];
      FoldKeepsSound(base, front);
      AppendKeepsSound(FoldAppends(base, front), turns[|turns| - 1]);
    }
  }

  lemma ConcatOneMore(turns: seq<Items>, t: Items)
    ensures Concat(turns + [t]) == Concat(turns) + t
  {
    assert (turns + [t])[..|turns|] == turns;
  }

  lemma {:induction false} HistoryIsRecorded(base: Items, turns: seq<Items>)
    requires Sound(base) && Named(turns)
    ensures History(base, turns) == base + Concat(Recorded(base, turns))
    decreases |turns|
  {
    if turns == [] {
      assert base + [] == base;
    } else {
      var front, t := turns[..|turns| - 1], turns[|turns| - 1];
      HistoryIsRecorded(base, front);
      FoldKeepsSound(base, front);
      if !HasTurn(FoldAppends(base, front), TurnId(t)) {
        ConcatOneMore(Recorded(base, front), t);
        Associative(base, Concat(Recorded(base, front)), t);
        assert front == [] ==> Concat(Recorded(base, front)) == [];
      }
    }
  }

  /** Turns led by a marker, repeated ones included: the cache holds one trim of the turns that were new
      when they came, so a turn is lost to trimming and nothing else. */
  lemma RecordedTurnsAreTrimmedOnce(base: Items, turns: seq<Items>)
    requires Sound(base) && Named(turns)
    ensures FoldAppends(base, turns) == Trim(base + Concat(Recorded(base, turns)))
  {
    AppendsEqualOneTrim(base, turns);
    HistoryIsRecorded(base, turns);
  }

  /** Within the bounds nothing is ever lost. */
  lemma AppendsLoseNothing(base: Items, turns: seq<Items>)
    requires Sound(base) && Named(turns) && Legal(base + Concat(Recorded(base, turns)))
    ensures FoldAppends(base, turns) == base + Concat(Recorded(base, turns))
  {
    RecordedTurnsAreTrimmedOnce(base, turns);
  }

  predicate NoneNamed(turns: seq<Items>, id: string) {
    turns == [] || (TurnId(turns[|turns| - 1]) != id && NoneNamed(turns[..|turns| - 1], id))
  }

  /** Completed turns in the order they were recorded after `base`, each under an id of its own. */
  predicate TurnHistory(base: Items, turns: seq<Items>) {
    if turns == [] then Sound(base)
    else
      var front, t := turns[..|turns| - 1], turns[|turns| - 1];
      TurnHistory(base, front) && OneTurn(t) && !HasTurn(base, TurnId(t)) && NoneNamed(front, TurnId(t))
  }

  lemma {:induction false} HistoryMarkers(base: Items, turns: seq<Items>, id: string, i: nat)
    requires TurnHistory(base, turns) && !HasTurn(base, id) && NoneNamed(turns, id)
    requires i < |base + Concat(turns)| && (base + Concat(turns))[i].Marker?
    ensures (base + Concat(turns))[i].id != id
    decreases |turns|
  {
    if turns != [] {
      var front := turns[..|turns| - 1];
      if i < |base + Concat(front)| {
        assert (base + Concat(turns))[i] == (base + Concat(front))[i];
        HistoryMarkers(base, front, id, i);
      }
    }
  }

  lemma {:induction false} HistoryIsNamed(base: Items, turns: seq<Items>)
    requires TurnHistory(base, turns)
    ensures Sound(base) && Named(turns)
    decreases |turns|
  {
    if turns != [] {
      HistoryIsNamed(base, turns[..|turns| - 1]);
      assert forall i :: 0 <= i < |turns| - 1 ==> turns[i] == turns[..|turns| - 1][i];
    }
  }

  lemma NewTurnIsNew(base: Items, turns: seq<Items>, id: string)
    requires TurnHistory(base, turns) && !HasTurn(base, id) && NoneNamed(turns, id)
    ensures !HasTurn(Trim(base + Concat(turns)), id)
  {
    var all := base + Concat(turns);
    TrimKeepsTurn(all, id);
    if HasLegalTurn(all, id) {
      var i :| 0 <= i < |all| && all[i].Marker? && all[i].id == id && Legal(all[i..]);
      HistoryMarkers(base, turns, id, i);
    }
  }

  lemma {:induction false} NewTurnIsRecorded(base: Items, front: seq<Items>, t: Items)
    requires Recorded(base, front) == front
    requires TurnHistory(base, front) && !HasTurn(base, TurnId(t)) && NoneNamed(front, TurnId(t))
    ensures Recorded(base, front + [t]) == front + [t]
  {
    HistoryIsNamed(base, front);
    RecordedTurnsAreTrimmedOnce(base, front);
    NewTurnIsNew(base, front, TurnId(t));
    assert (front + [t])[..|front|] == front;
  }

  lemma {:induction false} DistinctTurnsAreRecorded(base: Items, turns: seq<Items>)
    requires TurnHistory(base, turns)
    ensures Recorded(base, turns) == turns
    decreases |turns|
  {
    if turns != [] {
      var front, t := turns[..|turns| - 1], turns[|turns| - 1];
      assert turns == front + [t];
      DistinctTurnsAreRecorded(base, front);
      NewTurnIsRecorded(base, front, t);
    }
  }

  /** Turns with ids of their own are all recorded: the cache is one trim of the complete history. */
  lemma {:induction false} DistinctTurnsAreTrimmedOnce(base: Items, turns: seq<Items>)
    requires TurnHistory(base, turns)
    ensures FoldAppends(base, turns) == Trim(base + Concat(turns))
  {
    DistinctTurnsAreRecorded(base, turns);
    HistoryIsNamed(base, turns);
    RecordedTurnsAreTrimmedOnce(base, turns);
  }

  /** Trimming discards a list and keeps what was appended to it exactly when no suffix that starts in the
      list is legal and the rest starts at a marker. */
  lemma OnlyTurnIsKept(x: Items, t: Items)
    requires x != [] && Legal(t)
    ensures Trim(x + t) == t <==> (t == [] || t[0].Marker?) && NoneLegalBefore(x + t, |x|)
  {
    var all := x + t;
    var s := TrimIsLongestLegal(all);
    assert all[|x|..] == t;
    if Trim(all) == t {
      assert |all| - s == |t|;
    }
    if (t == [] || t[0].Marker?) && NoneLegalBefore(all, |x|) {
      assert t != [] ==> LegalFrom(all, |x|);
      assert s == |x|;
    }
  }

  /** A list that does not open with a marker is discarded by an append.  So a turn is added to what is
      stored exactly when the list is empty or opens with a marker, or trimming would discard the list
      anyway: the turn is led by a marker and no suffix that starts in the list is legal. */
  lemma HeadlessListIsDiscarded(existing: Items, t: Items)
    requires Legal(t) && (TurnId(t) == "" || !HasTurn(Base(existing), TurnId(t)))
    ensures Appended(existing, t) == Trim(existing + t)
      <==> existing == [] || existing[0].Marker?
           || ((t == [] || t[0].Marker?) && NoneLegalBefore(existing + t, |existing|))
  {
    assert [] + t == t;
    if existing != [] {
      OnlyTurnIsKept(existing, t);
    }
  }

  /** One such list: a turn without a marker is stored and gone after the next append. */
  lemma UnmarkedTurnIsLost(text: string, id: string)
    requires id != "" && |text| <= MAX_BYTES
    ensures Appended([], [Other(text)]) == [Other(text)]
    ensures Appended(Appended([], [Other(text)]), [Marker(id, "")]) == [Marker(id, "")]
  {
    var first, second := [Other(text)], [Marker(id, "")];
    assert [] + first == first && [] + second == second;
    assert first[1..] == [] && second[1..] == [];
    assert Bytes(first) == |text| && Bytes(second) == 0;
  }

  // ---------------------------------------------------------------- no turn is stored twice

  ghost predicate DistinctMarkers(items: Items) {
    forall i, j :: 0 <= i < j < |items| && items[i].Marker? && items[j].Marker? ==> items[i].id != items[j].id
  }

  lemma AppendKeepsMarkersDistinct(existing: Items, t: Items)
    requires DistinctMarkers(existing) && OneTurn(t)
    ensures DistinctMarkers(Appended(existing, t))
  {
    var base := Base(existing);
    if HasTurn(base, t[0].id) {
      var _ := TrimIsLongestLegal(base);
    } else {
      var _ := TrimIsLongestLegal(base + t);
      assert forall i :: 0 <= i < |base| && base[i].Marker? ==> base[i].id != t[0].id;
      assert DistinctMarkers(base + t);
    }
  }
}
