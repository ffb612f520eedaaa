/** Trimming of texts. */
module Texts {

  predicate IsSpace(c: char) {
    c == ' ' || '\t' <= c <= '\r' || c == '\U{85}' || c == '\U{A0}' || c == '\U{1680}'
    || '\U{2000}' <= c <= '\U{200A}' || c == '\U{2028}' || c == '\U{2029}' || c == '\U{202F}'
    || c == '\U{205F}' || c == '\U{3000}'
  }

  function Trim(s: string): string {
    if s != "" && IsSpace(s[0]) then Trim(s[1..])
    else if s != "" && IsSpace(s[|s| - 1]) then Trim(s[..|s| - 1])
    else s
  }

  lemma {:induction false} TrimIsSubtext(s: string)
    ensures Trim(s) == "" || (!IsSpace(Trim(s)[0]) && !IsSpace(Trim(s)[|Trim(s)| - 1]))
    decreases |s|
  {
    if s != "" && IsSpace(s[0]) {
      TrimIsSubtext(s[1..]);
    } else if s != "" && IsSpace(s[|s| - 1]) {
      TrimIsSubtext(s[..|s| - 1]);
    }
  }

  /** Trimming takes white space from both ends and nothing from between. */
  lemma {:induction false} TrimIsMiddle(s: string) returns (before: string, after: string)
    ensures s == before + Trim(s) + after && forall c :: c in before || c in after ==> IsSpace(c)
    decreases |s|
  {
    before, after := "", "";
    if s != "" && IsSpace(s[0]) {
      before, after := TrimIsMiddle(s[1..]);
      assert s == [s[0]] + s[1..];
      assert [s[0]] + (before + Trim(s) + after) == [s[0]] + before + Trim(s) + after;
      before := [s[0]] + before;
    } else if s != "" && IsSpace(s[|s| - 1]) {
      before, after := TrimIsMiddle(s[..|s| - 1]);
      assert s == s[..|s| - 1] + [s[|s| - 1]];
      assert before + Trim(s) + after + [s[|s| - 1]] == before + Trim(s) + (after + [s[|s| - 1]]);
      after := after + [s[|s| - 1]];
    }
  }

  lemma {:induction false} SpacesAre(c: char)
    ensures IsSpace(c) <==>
      9 <= c as int <= 13 || c as int in {32, 133, 160, 5760} || 8192 <= c as int <= 8202
      || c as int in {8232, 8233, 8239, 8287, 12288}
  {
  }

  lemma {:induction false} TrimTwice(s: string)
    ensures Trim(Trim(s)) == Trim(s)
  {
    TrimIsSubtext(s);
  }
}
