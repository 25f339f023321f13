/** Small notions that several modules use. */
module Basics {
  const UINT32: nat := 0x1_0000_0000

  function Min(a: nat, b: nat): nat { if a < b then a else b }

  function Max(a: nat, b: nat): nat { if a < b then b else a }

  ghost predicate Distinct(s: seq<nat>) {
    forall i, j :: 0 <= i < j < |s| ==> s[i] != s[j]
  }

  ghost predicate AreBytes(s: seq<int>) { forall i :: 0 <= i < |s| ==> 0 <= s[i] < 256 }

  // b with the piece written over it at o.
  function Patch(b: seq<int>, o: nat, piece: seq<int>): seq<int>
    requires o + |piece| <= |b|
  {
    b[..o] + piece + b[o + |piece|..]
  }

  lemma SubsetSize<T>(s: set<T>, t: set<T>)
    requires s <= t
    ensures |s| <= |t| && (s != t ==> |s| < |t|)
  {
    assert t == s + (t - s);
    assert s != t ==> t - s != {};
  }

  lemma UnionSize<T>(s: set<T>, t: set<T>)
    requires s !! t
    ensures |s + t| == |s| + |t|
  {
  }
}
