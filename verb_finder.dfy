/**
 * `VerbFinder`: a dependency pattern with one node, `DEP == "ROOT"`. Each
 * ROOT token is a match of one position; the first match's positions,
 * sorted, are the sentence's predicate positions, and no match gives [].
 * The matcher's order among several ROOT tokens is not fixed by the source;
 * the model takes the lowest position (a parsed sentence has a single ROOT).
 */
module VerbFinder {
  import opened Text
  import opened Annotation

  predicate IsRoot(t: Token)
  {
    t.dep == "ROOT"
  }

  /** The lowest position at or after `from` whose token is the ROOT. */
  function FirstRoot(ts: seq<Token>, from: nat): (r: Option<nat>)
    requires from <= |ts|
    ensures r.Some? ==> from <= r.value < |ts| && IsRoot(ts[r.value])
    ensures r.Some? ==> forall k :: from <= k < r.value ==> !IsRoot(ts[k])
    ensures r.None? <==> forall k :: from <= k < |ts| ==> !IsRoot(ts[k])
    decreases |ts| - from
  {
    if from == |ts| then None
    else if IsRoot(ts[from]) then Some(from)
    else FirstRoot(ts, from + 1)
  }

  /** `VerbFinder.__call__` on a sentence's tokens. */
  function RootPositions(ts: seq<Token>): (r: seq<nat>)
    ensures r == [] <==> forall k :: 0 <= k < |ts| ==> !IsRoot(ts[k])
    ensures |r| <= 1
    ensures forall j :: 0 <= j < |r| ==> r[j] < |ts| && IsRoot(ts[r[j]])
    ensures forall j :: 0 <= j < |r| ==> forall k :: 0 <= k < r[j] ==> !IsRoot(ts[k])
  {
    match FirstRoot(ts, 0)
    case Some(i) => [i]
    case None => []
  }
}
