/** What several modules need of sequences. */
module Sequences {
  import opened Wrappers

  lemma {:induction false} Associative<T>(a: seq<T>, b: seq<T>, c: seq<T>)
    ensures (a + b) + c == a + (b + c)
  {
  }

  /** What `f` makes of the elements it accepts, in order. */
  function FilterMap<T>(f: T -> Option<T>, s: seq<T>): seq<T> {
    if s == [] then []
    else
      var rest := FilterMap(f, s[..|s| - 1]);
      match f(s[|s| - 1])
      case None => rest
      case Some(x) => rest + [x]
  }

  lemma {:induction false} FilterMapOneMore<T>(f: T -> Option<T>, s: seq<T>, x: T)
    ensures FilterMap(f, s + [x]) == FilterMap(f, s) + if f(x).Some? then [f(x).value] else []
  {
    assert (s + [x])[..|s|] == s;
  }

  /** Where the elements of the result come from: `positions` are those of the accepted elements, all of
      them, in order. */
  lemma {:induction false} FilterMapPositions<T>(f: T -> Option<T>, s: seq<T>) returns (positions: seq<nat>)
    ensures |positions| == |FilterMap(f, s)|
    ensures forall i, j :: 0 <= i < j < |positions| ==> positions[i] < positions[j]
    ensures forall i :: 0 <= i < |positions| ==>
      positions[i] < |s| && f(s[positions[i]]) == Some(FilterMap(f, s)[i])
    ensures forall n :: 0 <= n < |s| && n !in positions ==> f(s[n]).None?
  {
    if s == [] {
      return [];
    }
    var front, x := s[..|s| - 1], s[|s| - 1];
    assert s == front + [x];
    FilterMapOneMore(f, front, x);
    positions := FilterMapPositions(f, front);
    if f(x).Some? {
      positions := positions + [|front|];
    }
  }
}
