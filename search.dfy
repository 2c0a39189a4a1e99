/**
 * Linear "first match" search, the shape of every loop in the model that
 * scans a Go slice in order and `break`s on the first hit.
 */
module Search {

  import opened Options

  /** The index of the first element of `s` satisfying `p`, if any. */
  function FirstIndex<T>(s: seq<T>, p: T -> bool): (r: Option<nat>)
    ensures r.Some? ==> r.value < |s| && p(s[r.value])
    ensures r.Some? ==> forall k :: 0 <= k < r.value ==> !p(s[k])
    ensures r.None? <==> forall k :: 0 <= k < |s| ==> !p(s[k])
  {
    if |s| == 0 then None
    else if p(s[0]) then Some(0)
    else match FirstIndex(s[1..], p)
      case None => None
      case Some(i) => Some(i + 1)
  }

  /** A hit with no earlier hit is the first index. */
  lemma FirstIndexIs<T>(s: seq<T>, p: T -> bool, i: nat)
    requires i < |s| && p(s[i])
    requires forall k :: 0 <= k < i ==> !p(s[k])
    ensures FirstIndex(s, p) == Some(i)
  {
  }

  /** Elements after the first hit are never consulted. */
  lemma FirstIndexIgnoresSuffix<T>(s: seq<T>, p: T -> bool, i: nat, rest: seq<T>)
    requires FirstIndex(s, p) == Some(i)
    ensures FirstIndex(s[..i + 1] + rest, p) == Some(i)
  {
    var t := s[..i + 1] + rest;
    assert forall k :: 0 <= k <= i ==> t[k] == s[k];
    FirstIndexIs(t, p, i);
  }
}
