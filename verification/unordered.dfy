/**
 * Iteration over Rust's `HashMap` and `HashSet` visits the entries in an
 * unspecified order. The model fixes that order by an arbitrary but
 * deterministic choice of the next key; everything proved about code that
 * iterates a hash container is stated over sets, multisets or counts, so it
 * holds whichever order the real container produces.
 */
module Unordered {

  /** The key a hash container happens to visit first. */
  ghost function Pick<K>(s: set<K>): (k: K)
    requires s != {}
    ensures k in s
  {
    var k :| k in s; k
  }

  /** The visiting order of a hash set: every element exactly once. */
  ghost function Enumerate<K(!new)>(s: set<K>): (r: seq<K>)
    ensures |r| == |s|
    ensures forall x :: x in r <==> x in s
    ensures forall i, j :: 0 <= i < j < |r| ==> r[i] != r[j]
    decreases s
  {
    if s == {} then []
    else
      var k := Pick(s);
      var rest := Enumerate(s - {k});
      [k] + rest
  }
}
