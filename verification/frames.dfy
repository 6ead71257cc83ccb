/**
 Frame synthesis (lines 109-115 of the format script): when a recording has
 no frame column, the script walks the distinct pedestrian ids of the
 id-sorted table in the iteration order of a Python `set` and appends
 `0, 1, ..., k-1` for an id with `k` rows. That iteration order is not
 specified by Python, so here it is the explicit parameter `order`.
 */
module FrameSynthesis {

  /** `0.0, 1.0, ..., (n-1) as real`: numpy's `np.arange(n)` appended to a float array. */
  function Range(n: nat): seq<real> {
    seq(n, i => i as real)
  }

  /**
   The synthesised frame vector: one run `0..k-1` per id of `order`, `k` its
   number of rows. Every frame is a whole number below the number of rows.
   */
  function SynthFrames(ids: seq<real>, order: seq<real>): (r: seq<real>)
    ensures forall v :: v in r ==> 0.0 <= v < |ids| as real && v.Floor as real == v
  {
    if order == [] then []
    else Range(multiset(ids)[order[0]]) + SynthFrames(ids, order[1..])
  }

  predicate NoDuplicates(order: seq<real>) {
    forall i, j :: 0 <= i < j < |order| ==> order[i] != order[j]
  }

  /** Every id that occurs is listed. */
  predicate Covers(order: seq<real>, ids: seq<real>) {
    forall v :: v in ids ==> v in order
  }

  /** `order` lists each id that occurs exactly once and nothing else: an iteration order of `set(ids)`. */
  predicate Enumerates(order: seq<real>, ids: seq<real>) {
    NoDuplicates(order) && Covers(order, ids) && forall v :: v in order ==> v in ids
  }

  predicate Ascending(order: seq<real>) {
    forall i, j :: 0 <= i < j < |order| ==> order[i] < order[j]
  }

  predicate NonDecreasing(ids: seq<real>) {
    forall i, j :: 0 <= i < j < |ids| ==> ids[i] <= ids[j]
  }

  /** How many earlier rows share row `k`'s id: the frame row `k` ought to get. */
  function Rank(ids: seq<real>, k: nat): nat
    requires k < |ids|
  {
    multiset(ids[..k])[ids[k]]
  }

  /** `ids` with every occurrence of `a` dropped. */
  function Without(ids: seq<real>, a: real): (r: seq<real>)
    ensures |r| + multiset(ids)[a] == |ids|
    ensures forall v :: v != a ==> multiset(r)[v] == multiset(ids)[v]
    ensures forall v :: v in r ==> v in ids && v != a
  {
    if ids == [] then []
    else
      assert ids == [ids[0]] + ids[1..];
      (if ids[0] == a then [] else [ids[0]]) + Without(ids[1..], a)
  }

  /** The number of leading entries equal to `a`. */
  function LeadingRun(ids: seq<real>, a: real): (m: nat)
    ensures m <= |ids|
    ensures forall i :: 0 <= i < m ==> ids[i] == a
    ensures m < |ids| ==> ids[m] != a
  {
    if ids == [] || ids[0] != a then 0 else 1 + LeadingRun(ids[1..], a)
  }

  /** A sequence made of one repeated value holds it as often as it is long, and nothing else. */
  lemma {:induction false} Constant(s: seq<real>, a: real)
    requires forall i :: 0 <= i < |s| ==> s[i] == a
    ensures multiset(s)[a] == |s|
    ensures forall v :: v != a ==> multiset(s)[v] == 0
  {
    if s != [] {
      Constant(s[1..], a);
      assert s == [s[0]] + s[1..];
    }
  }

  /** The frames depend on `ids` only through the row counts of the listed ids. */
  lemma {:induction false} FramesAgree(ids1: seq<real>, ids2: seq<real>, order: seq<real>)
    requires forall v :: v in order ==> multiset(ids1)[v] == multiset(ids2)[v]
    ensures SynthFrames(ids1, order) == SynthFrames(ids2, order)
  {
    if order != [] {
      var a := order[0];
      Member(order, 0);
      assert multiset(ids1)[a] == multiset(ids2)[a];
      assert forall v :: v in order[1..] ==> v in order;
      FramesAgree(ids1, ids2, order[1..]);
    }
  }

  lemma Member(s: seq<real>, i: nat)
    requires i < |s|
    ensures s[i] in s
  {
  }

  /** A listing that covers no id leaves nothing to count. */
  lemma EmptyOrder(ids: seq<real>, order: seq<real>)
    requires Covers(order, ids) && order == []
    ensures ids == []
  {
    if ids != [] {
      var v := ids[0];
      Member(ids, 0);
      assert false;
    }
  }

  /**
   Whatever the enumeration order, the synthesised vector has one entry per
   row, so the column stack at line 125 lines up.
   */
  lemma {:induction false} FramesLength(ids: seq<real>, order: seq<real>)
    requires NoDuplicates(order) && Covers(order, ids)
    ensures |SynthFrames(ids, order)| == |ids|
    decreases |order|
  {
    if order == [] {
      EmptyOrder(ids, order);
    } else {
      var a, rest := order[0], order[1..];
      var others := Without(ids, a);
      assert forall v :: v in rest ==> v != a;
      FramesAgree(ids, others, rest);
      assert Covers(rest, others) by {
        forall v | v in others
          ensures v in rest
        {
          assert v in order && v != a;
        }
      }
      FramesLength(others, rest);
    }
  }

  /**
   In an id-sorted sequence listed in ascending order, the ids equal to the
   smallest listed one form a prefix, and every later id is larger.
   */
  lemma RunBound(ids: seq<real>, order: seq<real>)
    requires NonDecreasing(ids) && Ascending(order) && Covers(order, ids) && order != []
    ensures forall j :: LeadingRun(ids, order[0]) <= j < |ids| ==> order[0] < ids[j]
  {
    var a := order[0];
    var m := LeadingRun(ids, a);
    assert forall v :: v in order ==> a <= v;
    if m < |ids| {
      var w := ids[m];
      Member(ids, m);
      assert a < w;
    }
  }

  /** The first `m` rows all carry id `a`, and their ranks are `0..m-1`. */
  lemma HeadRanks(ids: seq<real>, a: real, m: nat, k: nat)
    requires m <= |ids| && k < m
    requires forall i :: 0 <= i < m ==> ids[i] == a
    ensures Rank(ids, k) == k
  {
    Constant(ids[..k], a);
  }

  /** Past a prefix of `a`s, a row with another id ranks as it does in the rest. */
  lemma TailRanks(ids: seq<real>, a: real, m: nat, k: nat)
    requires m <= k < |ids| && ids[k] != a
    requires forall i :: 0 <= i < m ==> ids[i] == a
    ensures Rank(ids, k) == Rank(ids[m..], k - m)
  {
    Constant(ids[..m], a);
    assert ids[..k] == ids[..m] + ids[m..][..k - m];
  }

  /**
   Splitting off the run of the smallest listed id: it holds all rows of that
   id, and the remaining rows carry exactly the remaining listed ids.
   */
  lemma SplitRun(ids: seq<real>, order: seq<real>)
    requires NonDecreasing(ids) && Ascending(order) && Covers(order, ids) && order != []
    ensures multiset(ids)[order[0]] == LeadingRun(ids, order[0])
    ensures forall v :: v in order[1..] ==>
      multiset(ids)[v] == multiset(ids[LeadingRun(ids, order[0])..])[v]
    ensures Covers(order[1..], ids[LeadingRun(ids, order[0])..])
  {
    var a, rest := order[0], order[1..];
    var m := LeadingRun(ids, a);
    var tail := ids[m..];
    RunBound(ids, order);
    assert ids == ids[..m] + tail;
    Constant(ids[..m], a);
    assert a !in tail;
    assert forall v :: v in rest ==> a < v;
    forall v | v in tail
      ensures v in rest
    {
      assert v in ids && a < v;
    }
  }

  /**
   When the ids are enumerated in ascending order, the frames line up with
   the id-sorted rows: each pedestrian's rows receive `0..k-1` in their
   order, so row `k` gets the number of earlier rows of the same pedestrian.
   */
  lemma {:induction false} FramesAligned(ids: seq<real>, order: seq<real>)
    requires NonDecreasing(ids) && Ascending(order) && Covers(order, ids)
    ensures |SynthFrames(ids, order)| == |ids|
    ensures forall k :: 0 <= k < |ids| ==> SynthFrames(ids, order)[k] == Rank(ids, k) as real
    decreases |order|
  {
    if order == [] {
      EmptyOrder(ids, order);
    } else {
      var a, rest := order[0], order[1..];
      var m := LeadingRun(ids, a);
      var tail := ids[m..];
      SplitRun(ids, order);
      FramesAgree(ids, tail, rest);
      FramesAligned(tail, rest);
      var f := SynthFrames(ids, order);
      assert f == Range(m) + SynthFrames(tail, rest);
      forall k | 0 <= k < |ids|
        ensures f[k] == Rank(ids, k) as real
      {
        if k < m {
          HeadRanks(ids, a, m, k);
        } else {
          RunBound(ids, order);
          TailRanks(ids, a, m, k);
        }
      }
    }
  }

  /** A later row of the same pedestrian has a larger rank. */
  lemma RankIncreases(ids: seq<real>, i: nat, j: nat)
    requires i < j < |ids| && ids[i] == ids[j]
    ensures Rank(ids, i) < Rank(ids, j)
  {
    assert ids[..j] == ids[..i] + [ids[i]] + ids[i + 1..j];
  }

  /**
   With ids `1, 1, 2` enumerated as `2, 1` (an order a Python set may
   choose), the synthesised frames are `0, 0, 1`: the second row of
   pedestrian 1 repeats frame 0 and pedestrian 2 starts at frame 1, where
   the ranks are `0, 1, 0`.
   */
  lemma UnorderedMisaligns()
    ensures Enumerates([2.0, 1.0], [1.0, 1.0, 2.0])
    ensures SynthFrames([1.0, 1.0, 2.0], [2.0, 1.0]) == [0.0, 0.0, 1.0]
    ensures [Rank([1.0, 1.0, 2.0], 0), Rank([1.0, 1.0, 2.0], 1), Rank([1.0, 1.0, 2.0], 2)] == [0, 1, 0]
  {
    var ids := [1.0, 1.0, 2.0];
    assert multiset(ids)[2.0] == 1 && multiset(ids)[1.0] == 2;
    assert SynthFrames(ids, [1.0]) == Range(2);
    assert ids[..1] == [1.0] && ids[..2] == [1.0, 1.0];
  }
}
