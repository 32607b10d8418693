/** Subsequences of a sequence, given by the strictly increasing positions at which they stand. */
module Sequences {

  /** `idx` lists strictly increasing positions of `s` at which the elements of `r` stand, in order. */
  ghost predicate Embeds<T>(r: seq<T>, s: seq<T>, idx: seq<int>)
  {
    && |idx| == |r|
    && (forall k :: 0 <= k < |idx| ==> 0 <= idx[k] < |s| && r[k] == s[idx[k]])
    && (forall k, l :: 0 <= k < l < |idx| ==> idx[k] < idx[l])
  }

  /** Every position moved one place on. */
  function Shifted(idx: seq<int>): (r: seq<int>)
    ensures |r| == |idx| && forall k :: 0 <= k < |idx| ==> r[k] == idx[k] + 1
  {
    seq(|idx|, k requires 0 <= k < |idx| => idx[k] + 1)
  }

  /** An embedding in the tail carries over to the whole sequence, with or without its head in front. */
  lemma EmbedsInTail<T>(r: seq<T>, s: seq<T>, idx: seq<int>)
    requires s != [] && Embeds(r, s[1..], idx)
    ensures Embeds(r, s, Shifted(idx))
    ensures Embeds([s[0]] + r, s, [0] + Shifted(idx))
  {
    var sh := Shifted(idx);
    assert forall k :: 0 <= k < |idx| ==> s[1..][idx[k]] == s[sh[k]];
    var r' := [s[0]] + r;
    var idx' := [0] + sh;
    forall k | 0 <= k < |idx'| ensures 0 <= idx'[k] < |s| && r'[k] == s[idx'[k]] {
      if k > 0 {
        assert r'[k] == r[k - 1] && idx'[k] == sh[k - 1];
      }
    }
  }

  /** A position is in the shifted list exactly when the one before it is in the original. */
  lemma ShiftedMembers(idx: seq<int>)
    ensures forall i :: i in Shifted(idx) <==> i - 1 in idx
  {
    var sh := Shifted(idx);
    forall i ensures i in sh <==> i - 1 in idx {
      if i in sh {
        var k :| 0 <= k < |sh| && sh[k] == i;
        assert idx[k] == i - 1;
      }
      if i - 1 in idx {
        var k :| 0 <= k < |idx| && idx[k] == i - 1;
        assert sh[k] == i;
      }
    }
  }
}
