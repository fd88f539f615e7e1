/** The row-set behaviour of a pandas inner merge on one key column. */
module Frames {
  import opened Sorting

  /** The key column of a frame. */
  function Keys<R, K>(rows: seq<R>, key: R -> K): (ks: seq<K>)
    ensures |ks| == |rows| && forall i :: 0 <= i < |rows| ==> ks[i] == key(rows[i])
  {
    seq(|rows|, i requires 0 <= i < |rows| => key(rows[i]))
  }

  /** The rows of `right` whose key equals the key of `l`, each paired with `l`, in the order of `right`. */
  function Matches<L, R, K(==)>(l: L, right: seq<R>, lk: L -> K, rk: R -> K): (m: seq<(L, R)>)
    ensures |m| <= |right|
    ensures forall p :: p in m ==> p.0 == l && p.1 in right && rk(p.1) == lk(l)
  {
    if right == [] then []
    else (if rk(right[0]) == lk(l) then [(l, right[0])] else []) + Matches(l, right[1..], lk, rk)
  }

  /**
   * An inner merge: for every left row in order, one output row per right row with the same key
   * (left rows without a partner disappear, a left row with several partners is repeated).
   */
  function InnerJoin<L, R, K(==)>(left: seq<L>, right: seq<R>, lk: L -> K, rk: R -> K): (j: seq<(L, R)>)
    ensures forall p :: p in j ==> p.0 in left && p.1 in right && rk(p.1) == lk(p.0)
  {
    if left == [] then []
    else Matches(left[0], right, lk, rk) + InnerJoin(left[1..], right, lk, rk)
  }

  lemma {:induction false} MatchesNone<L, R, K>(l: L, right: seq<R>, lk: L -> K, rk: R -> K)
    requires forall i :: 0 <= i < |right| ==> rk(right[i]) != lk(l)
    ensures Matches(l, right, lk, rk) == []
  {
    if right != [] {
      MatchesNone(l, right[1..], lk, rk);
    }
  }

  /** A left row whose key occurs at exactly one position `k` of `right` is matched with that row only. */
  lemma {:induction false} MatchesUnique<L, R, K>(l: L, right: seq<R>, lk: L -> K, rk: R -> K, k: nat)
    requires k < |right| && rk(right[k]) == lk(l)
    requires forall i :: 0 <= i < |right| && rk(right[i]) == lk(l) ==> i == k
    ensures Matches(l, right, lk, rk) == [(l, right[k])]
  {
    if k == 0 {
      MatchesNone(l, right[1..], lk, rk);
    } else {
      MatchesUnique(l, right[1..], lk, rk, k - 1);
    }
  }

  /** Every pair of a left and a right row with equal keys is in the matches of the left row. */
  lemma {:induction false} MatchesComplete<L, R, K>(l: L, right: seq<R>, lk: L -> K, rk: R -> K, r: R)
    requires r in right && rk(r) == lk(l)
    ensures (l, r) in Matches(l, right, lk, rk)
  {
    if right[0] != r {
      assert r in right[1..];
      MatchesComplete(l, right[1..], lk, rk, r);
    }
  }

  /** The inner merge holds exactly the pairs of a left and a right row with equal keys. */
  lemma {:induction false} InnerJoinComplete<L, R, K>(left: seq<L>, right: seq<R>, lk: L -> K, rk: R -> K, l: L, r: R)
    requires l in left && r in right && rk(r) == lk(l)
    ensures (l, r) in InnerJoin(left, right, lk, rk)
  {
    if left[0] == l {
      MatchesComplete(l, right, lk, rk, r);
    } else {
      assert l in left[1..];
      InnerJoinComplete(left[1..], right, lk, rk, l, r);
    }
  }

  /** A key that occurs once among the keys of `right` names exactly one position. */
  lemma KeyPosition<R, K>(right: seq<R>, rk: R -> K, x: K) returns (k: nat)
    requires Distinct(Keys(right, rk)) && x in Keys(right, rk)
    ensures k < |right| && rk(right[k]) == x
    ensures forall i :: 0 <= i < |right| && rk(right[i]) == x ==> i == k
  {
    var ks := Keys(right, rk);
    k :| 0 <= k < |ks| && ks[k] == x;
    forall i | 0 <= i < |right| && rk(right[i]) == x ensures i == k {
      assert ks[i] == ks[k];
    }
  }

  /**
   * When no right key repeats and every left key occurs among them, the inner merge keeps one row
   * per left row, in order, each paired with the right row of its key.
   */
  lemma {:induction false} JoinUniqueRight<L, R, K>(left: seq<L>, right: seq<R>, lk: L -> K, rk: R -> K)
    requires Distinct(Keys(right, rk))
    requires forall i :: 0 <= i < |left| ==> lk(left[i]) in Keys(right, rk)
    ensures |InnerJoin(left, right, lk, rk)| == |left|
    ensures forall i :: 0 <= i < |left| ==>
              && InnerJoin(left, right, lk, rk)[i].0 == left[i]
              && InnerJoin(left, right, lk, rk)[i].1 in right
              && rk(InnerJoin(left, right, lk, rk)[i].1) == lk(left[i])
  {
    if left != [] {
      var k := KeyPosition(right, rk, lk(left[0]));
      MatchesUnique(left[0], right, lk, rk, k);
      assert forall i :: 0 <= i < |left[1..]| ==> left[1..][i] == left[i + 1];
      JoinUniqueRight(left[1..], right, lk, rk);
      var j := InnerJoin(left, right, lk, rk);
      var rest := InnerJoin(left[1..], right, lk, rk);
      assert j == [(left[0], right[k])] + rest;
      forall i | 0 <= i < |left|
        ensures j[i].0 == left[i] && j[i].1 in right && rk(j[i].1) == lk(left[i])
      {
        if i > 0 {
          assert j[i] == rest[i - 1];
        }
      }
    }
  }

  /**
   * When the right keys are the positions 0..|right|-1 (a frame after `reset_index`) and every left
   * key is such a position, the inner merge keeps the left row count and is a lookup by position.
   */
  lemma {:induction false} JoinPositional<L, R>(left: seq<L>, right: seq<R>, lk: L -> int, rk: R -> int)
    requires forall i :: 0 <= i < |right| ==> rk(right[i]) == i
    requires forall i :: 0 <= i < |left| ==> 0 <= lk(left[i]) < |right|
    ensures |InnerJoin(left, right, lk, rk)| == |left|
    ensures forall i :: 0 <= i < |left| ==> InnerJoin(left, right, lk, rk)[i] == (left[i], right[lk(left[i])])
  {
    if left != [] {
      var k := lk(left[0]);
      assert 0 <= k < |right|;
      assert forall i :: 0 <= i < |right| && rk(right[i]) == lk(left[0]) ==> i == k;
      MatchesUnique(left[0], right, lk, rk, k);
      assert forall i :: 0 <= i < |left[1..]| ==> left[1..][i] == left[i + 1];
      JoinPositional(left[1..], right, lk, rk);
      var j := InnerJoin(left, right, lk, rk);
      var rest := InnerJoin(left[1..], right, lk, rk);
      assert j == [(left[0], right[k])] + rest;
      forall i | 0 <= i < |left|
        ensures j[i] == (left[i], right[lk(left[i])])
      {
        if i > 0 {
          assert j[i] == rest[i - 1];
          assert left[1..][i - 1] == left[i];
        }
      }
    }
  }
}
