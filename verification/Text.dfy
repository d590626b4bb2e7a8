/** Substrings, as the sources search for them. */
module Text {
  import opened Sequences

  predicate StartsWith(s: string, p: string) {
    |p| <= |s| && s[..|p|] == p
  }

  predicate EndsWith(text: string, part: string) {
    |part| <= |text| && text[|text| - |part|..] == part
  }

  predicate OccursAt(text: string, part: string, i: nat) {
    i + |part| <= |text| && text[i..i + |part|] == part
  }

  predicate Contains(text: string, part: string) {
    exists i | 0 <= i <= |text| :: OccursAt(text, part, i)
  }

  /** Containing is being spelled around. */
  lemma ContainsExactlyWhen(text: string, part: string)
    ensures Contains(text, part) <==> exists before, after :: text == before + part + after
  {
    if Contains(text, part) {
      var i :| 0 <= i <= |text| && OccursAt(text, part, i);
      assert text == text[..i] + part + text[i + |part|..];
    }
    if before, after :| text == before + part + after {
      assert OccursAt(text, part, |before|);
    }
  }

  /** The first position of `part`, searching from `i`. */
  function FindFrom(text: string, part: string, i: nat): (r: Option<nat>)
    requires i <= |text|
    ensures r.Some? ==> i <= r.value && OccursAt(text, part, r.value)
    ensures r.Some? ==> forall j :: i <= j < r.value ==> !OccursAt(text, part, j)
    ensures r.None? ==> forall j :: i <= j <= |text| ==> !OccursAt(text, part, j)
    decreases |text| - i
  {
    if OccursAt(text, part, i) then Some(i)
    else if i == |text| then None
    else FindFrom(text, part, i + 1)
  }

  function Find(text: string, part: string): Option<nat> {
    FindFrom(text, part, 0)
  }
}
