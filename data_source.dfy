/** Where the question set is loaded from. */
module DataSource {
  import opened Wrappers

  /** The path used when no override and no `src` property is given. */
  const DefaultSource: string := "./sample.json"

  /** A JavaScript truthiness test on an optional string: an absent value
      and the empty string both count as "not given". */
  predicate Present(o: Option<string>) {
    o.Some? && o.value != ""
  }

  /** Candidate `i` is the first one given. */
  predicate FirstGivenAt(candidates: seq<Option<string>>, i: nat) {
    i < |candidates| && Present(candidates[i]) &&
    forall j :: 0 <= j < i ==> !Present(candidates[j])
  }

  /** The first candidate that is given, or `fallback` when none is. */
  function FirstPresent(candidates: seq<Option<string>>, fallback: string): (r: string)
    ensures (forall i :: 0 <= i < |candidates| ==> !Present(candidates[i])) ==> r == fallback
    ensures forall i: nat :: FirstGivenAt(candidates, i) ==> r == candidates[i].value
  {
    if candidates == [] then fallback
    else if Present(candidates[0]) then candidates[0].value
    else FirstPresent(candidates[1..], fallback)
  }

  /** On a top-level page the window is its own parent: the page's own
      override is read again as the parent's and, when given, is chosen
      ahead of the `src` property. */
  lemma TopLevelOverrideDecides(o: string, src: Option<string>)
    requires o != ""
    ensures FirstPresent([Some(o), src], DefaultSource) == o
  {
    assert FirstGivenAt([Some(o), src], 0);
  }
}
