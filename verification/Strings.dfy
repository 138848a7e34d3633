/** Searching in text, as `str::find` and `str::contains` do it. */
module Strings {
  import opened Prelude

  /** `part` stands in `text` at position `i`. */
  predicate OccursAt(part: string, text: string, i: nat) {
    i + |part| <= |text| && text[i..i + |part|] == part
  }

  ghost predicate Occurs(part: string, text: string) {
    exists i: nat :: OccursAt(part, text, i)
  }

  /** `str::find`: the first occurrence at or after `from`. */
  function Find(part: string, text: string, from: nat): (r: Option<nat>)
    requires from <= |text|
    ensures r.Some? ==> from <= r.value && OccursAt(part, text, r.value)
    ensures forall i: nat :: from <= i && OccursAt(part, text, i) ==> r.Some? && r.value <= i
    decreases |text| - from
  {
    if OccursAt(part, text, from) then Some(from)
    else if from == |text| then None
    else Find(part, text, from + 1)
  }

  predicate Contains(text: string, part: string) {
    Find(part, text, 0).Some?
  }

  lemma ContainsIsOccurs(text: string, part: string)
    ensures Contains(text, part) <==> Occurs(part, text)
  {
  }

  function Lower(text: string): (r: string)
    ensures |r| == |text|
  {
    seq(|text|, i requires 0 <= i < |text| => LowerChar(text[i]))
  }

  /** `char::to_ascii_lowercase`. */
  function LowerChar(c: char): char {
    if 'A' <= c <= 'Z' then c - 'A' + 'a' else c
  }
}
