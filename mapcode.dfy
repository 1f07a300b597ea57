/** Finding the code of the map to show, from the page's URL fragment or from local storage. */
module MapCode {
  import opened Wrappers

  /** The pattern occurs in s starting at position i. */
  predicate OccursAt(s: string, pat: string, i: nat)
  {
    i + |pat| <= |s| && s[i..i + |pat|] == pat
  }

  /** JavaScript's indexOf from position `from`: the first occurrence at or after it, or -1. */
  function IndexOfFrom(s: string, pat: string, from: nat): (r: int)
    decreases |s| - from
    ensures r == -1 || from <= r
    ensures r >= 0 ==> OccursAt(s, pat, r) && forall j :: from <= j < r ==> !OccursAt(s, pat, j)
    ensures r == -1 ==> forall j :: from <= j ==> !OccursAt(s, pat, j)
  {
    if from + |pat| > |s| then -1
    else if s[from..from + |pat|] == pat then from
    else IndexOfFrom(s, pat, from + 1)
  }

  /** JavaScript's s.indexOf(pat). */
  function IndexOf(s: string, pat: string): int
  {
    IndexOfFrom(s, pat, 0)
  }

  /**
   * lookupMapCode: when the fragment contains "#/" anywhere, everything after its first two
   * characters; otherwise the code kept in local storage (null when none is kept).
   */
  function LookupMapCode(hash: string, stored: Option<string>): (r: Option<string>)
    ensures (exists i :: OccursAt(hash, "#/", i)) ==> |hash| >= 2 && r == Some(hash[2..])
    ensures (forall i :: !OccursAt(hash, "#/", i)) ==> r == stored
  {
    if IndexOf(hash, "#/") > -1 then Some(hash[2..]) else stored
  }

  /** The map links the page writes, "#/" followed by the code, lead back to that code. */
  lemma LinkGivesCode(code: string, stored: Option<string>)
    ensures LookupMapCode("#/" + code, stored) == Some(code)
  {
    assert OccursAt("#/" + code, "#/", 0);
  }
}
