/**
 The stable two-key sort that `np.lexsort((t[:, q], t[:, p]))` performs on
 the rows of a table: rows are ordered by column `p` and, among equal `p`
 values, by column `q`; rows whose two keys are both equal keep their input
 order. It is modelled as an insertion sort and specified by the three
 properties that together characterise a stable sort: the result is sorted,
 is a permutation of the input, and keeps the input order inside every key.
 */
module StableSort {
  import opened Tables

  type Key = (real, real)

  /** Both key columns exist in every row. */
  predicate Keyed(rows: seq<Row>, p: nat, q: nat) {
    HasColumn(rows, p) && HasColumn(rows, q)
  }

  function KeyOf(r: Row, p: nat, q: nat): Key
    requires p < |r| && q < |r|
  {
    (r[p], r[q])
  }

  /** Lexicographic order on keys, first component primary. */
  predicate KeyLe(a: Key, b: Key) {
    a.0 < b.0 || (a.0 == b.0 && a.1 <= b.1)
  }

  /** Every earlier row has a key no greater than every later one. */
  predicate Sorted(rows: seq<Row>, p: nat, q: nat)
    requires Keyed(rows, p, q)
  {
    forall i, j :: 0 <= i < j < |rows| ==> KeyLe(KeyOf(rows[i], p, q), KeyOf(rows[j], p, q))
  }

  /** The subsequence of the rows whose key is `k`, in their order. */
  function WithKey(rows: seq<Row>, p: nat, q: nat, k: Key): seq<Row>
    requires Keyed(rows, p, q)
  {
    if rows == [] then []
    else (if KeyOf(rows[0], p, q) == k then [rows[0]] else []) + WithKey(rows[1..], p, q, k)
  }

  /** Inserts `x` before the first row of `s` whose key is not smaller than its own. */
  function Insert(x: Row, s: seq<Row>, p: nat, q: nat): (r: seq<Row>)
    requires p < |x| && q < |x| && Keyed(s, p, q)
    ensures |r| == |s| + 1
    ensures multiset(r) == multiset(s) + multiset{x}
    ensures Keyed(r, p, q)
    decreases |s|
  {
    if s == [] || KeyLe(KeyOf(x, p, q), KeyOf(s[0], p, q)) then [x] + s
    else
      assert s == [s[0]] + s[1..];
      [s[0]] + Insert(x, s[1..], p, q)
  }

  /** A row no greater than every row of a sorted sequence can be put in front of it. */
  lemma SortedCons(h: Row, t: seq<Row>, p: nat, q: nat)
    requires p < |h| && q < |h| && Keyed(t, p, q)
    requires Sorted(t, p, q)
    requires forall y :: y in t ==> KeyLe(KeyOf(h, p, q), KeyOf(y, p, q))
    ensures Keyed([h] + t, p, q) && Sorted([h] + t, p, q)
  {
    var r := [h] + t;
    forall i, j | 0 <= i < j < |r|
      ensures KeyLe(KeyOf(r[i], p, q), KeyOf(r[j], p, q))
    {
      assert r[j] == t[j - 1];
      if i > 0 {
        assert r[i] == t[i - 1];
      }
    }
  }

  /** Inserting into a sorted sequence keeps it sorted. */
  lemma {:induction false} InsertSorted(x: Row, s: seq<Row>, p: nat, q: nat)
    requires p < |x| && q < |x| && Keyed(s, p, q)
    requires Sorted(s, p, q)
    ensures Sorted(Insert(x, s, p, q), p, q)
    decreases |s|
  {
    if s == [] || KeyLe(KeyOf(x, p, q), KeyOf(s[0], p, q)) {
    } else {
      var t := Insert(x, s[1..], p, q);
      InsertSorted(x, s[1..], p, q);
      forall y | y in t
        ensures KeyLe(KeyOf(s[0], p, q), KeyOf(y, p, q))
      {
        assert y in multiset(s[1..]) + multiset{x};
        if y != x {
          assert y in s[1..];
          var j :| 0 <= j < |s[1..]| && s[1..][j] == y;
          assert s[j + 1] == y;
        }
      }
      SortedCons(s[0], t, p, q);
    }
  }

  /**
   `x` lands in front of every row of `s` that has its key, and every other
   key's rows are untouched: the insertion is stable.
   */
  lemma {:induction false} InsertWithKey(x: Row, s: seq<Row>, p: nat, q: nat, k: Key)
    requires p < |x| && q < |x| && Keyed(s, p, q)
    ensures WithKey(Insert(x, s, p, q), p, q, k) ==
      (if KeyOf(x, p, q) == k then [x] + WithKey(s, p, q, k) else WithKey(s, p, q, k))
    decreases |s|
  {
    if s == [] || KeyLe(KeyOf(x, p, q), KeyOf(s[0], p, q)) {
      assert ([x] + s)[1..] == s;
    } else {
      InsertWithKey(x, s[1..], p, q, k);
      assert ([s[0]] + Insert(x, s[1..], p, q))[1..] == Insert(x, s[1..], p, q);
    }
  }

  /**
   Inserting the head of `rows` into a stable sort of its tail gives a
   stable sort of `rows`.
   */
  lemma InsertHead(rows: seq<Row>, t: seq<Row>, p: nat, q: nat)
    requires |rows| > 0 && Keyed(rows, p, q) && Keyed(t, p, q)
    requires multiset(t) == multiset(rows[1..])
    requires Sorted(t, p, q)
    requires forall k :: WithKey(t, p, q, k) == WithKey(rows[1..], p, q, k)
    ensures multiset(Insert(rows[0], t, p, q)) == multiset(rows)
    ensures Sorted(Insert(rows[0], t, p, q), p, q)
    ensures forall k :: WithKey(Insert(rows[0], t, p, q), p, q, k) == WithKey(rows, p, q, k)
  {
    InsertSorted(rows[0], t, p, q);
    assert rows == [rows[0]] + rows[1..];
    forall k
      ensures WithKey(Insert(rows[0], t, p, q), p, q, k) == WithKey(rows, p, q, k)
    {
      InsertWithKey(rows[0], t, p, q, k);
    }
  }

  /** Insertion sort: sorts the tail, then inserts the head in front of its equals. */
  function SortBy(rows: seq<Row>, p: nat, q: nat): (r: seq<Row>)
    requires Keyed(rows, p, q)
    ensures |r| == |rows|
    ensures multiset(r) == multiset(rows)
    ensures Keyed(r, p, q)
    ensures Sorted(r, p, q)
    ensures forall k :: WithKey(r, p, q, k) == WithKey(rows, p, q, k)
    decreases |rows|
  {
    if rows == [] then []
    else
      var t := SortBy(rows[1..], p, q);
      InsertHead(rows, t, p, q);
      Insert(rows[0], t, p, q)
  }

  /** Sorting an already sorted sequence changes nothing. */
  lemma {:induction false} SortedFixpoint(rows: seq<Row>, p: nat, q: nat)
    requires Keyed(rows, p, q) && Sorted(rows, p, q)
    ensures SortBy(rows, p, q) == rows
    decreases |rows|
  {
    if rows != [] {
      SortedFixpoint(rows[1..], p, q);
      assert rows == [rows[0]] + rows[1..];
    }
  }

  /** No two rows share a key, and keys increase. */
  predicate StrictlySorted(rows: seq<Row>, p: nat, q: nat)
    requires Keyed(rows, p, q)
  {
    forall i, j :: 0 <= i < j < |rows| ==>
      KeyLe(KeyOf(rows[i], p, q), KeyOf(rows[j], p, q)) && KeyOf(rows[i], p, q) != KeyOf(rows[j], p, q)
  }

  /** The first rows of a sorted and a strictly sorted permutation of each other coincide. */
  lemma StrictlySortedHead(a: seq<Row>, b: seq<Row>, p: nat, q: nat)
    requires Keyed(a, p, q) && Keyed(b, p, q)
    requires Sorted(a, p, q) && StrictlySorted(b, p, q)
    requires multiset(a) == multiset(b) && a != []
    ensures b != [] && a[0] == b[0]
  {
    assert a[0] in multiset(b);
    var j :| 0 <= j < |b| && b[j] == a[0];
    assert b[0] in multiset(a);
    var i :| 0 <= i < |a| && a[i] == b[0];
    assert KeyLe(KeyOf(a[0], p, q), KeyOf(a[i], p, q));
    if j > 0 {
      assert false;
    }
  }

  /** Dropping the first row keeps a sequence sorted, strictly or not. */
  lemma SortedTail(rows: seq<Row>, p: nat, q: nat)
    requires Keyed(rows, p, q) && rows != []
    ensures Keyed(rows[1..], p, q)
    ensures Sorted(rows, p, q) ==> Sorted(rows[1..], p, q)
    ensures StrictlySorted(rows, p, q) ==> StrictlySorted(rows[1..], p, q)
  {
    var t := rows[1..];
    assert forall i :: 0 <= i < |t| ==> t[i] == rows[i + 1];
  }

  /** Peeling the common first row off a sorted and a strictly sorted permutation of each other. */
  lemma StrictlySortedStep(a: seq<Row>, b: seq<Row>, p: nat, q: nat)
    requires Keyed(a, p, q) && Keyed(b, p, q)
    requires Sorted(a, p, q) && StrictlySorted(b, p, q)
    requires multiset(a) == multiset(b) && a != []
    ensures b != [] && a[0] == b[0]
    ensures Keyed(a[1..], p, q) && Keyed(b[1..], p, q)
    ensures Sorted(a[1..], p, q) && StrictlySorted(b[1..], p, q)
    ensures multiset(a[1..]) == multiset(b[1..])
  {
    StrictlySortedHead(a, b, p, q);
    TailPermutation(a, b);
    SortedTail(a, p, q);
    SortedTail(b, p, q);
  }

  /** A sorted permutation of a strictly sorted sequence is that sequence. */
  lemma {:induction false} StrictlySortedUnique(a: seq<Row>, b: seq<Row>, p: nat, q: nat)
    requires Keyed(a, p, q) && Keyed(b, p, q)
    requires Sorted(a, p, q) && StrictlySorted(b, p, q)
    requires multiset(a) == multiset(b)
    ensures a == b
    decreases |a|
  {
    if a == [] {
      assert |b| == |multiset(b)| == 0;
    } else {
      StrictlySortedStep(a, b, p, q);
      StrictlySortedUnique(a[1..], b[1..], p, q);
      assert a == [a[0]] + a[1..] && b == [b[0]] + b[1..];
    }
  }

  /** The rows with key `k` are exactly the rows that have that key. */
  lemma {:induction false} WithKeyMembers(rows: seq<Row>, p: nat, q: nat, k: Key, y: Row)
    requires Keyed(rows, p, q)
    ensures y in WithKey(rows, p, q, k) <==> y in rows && p < |y| && q < |y| && KeyOf(y, p, q) == k
    decreases |rows|
  {
    if rows != [] {
      WithKeyMembers(rows[1..], p, q, k, y);
      assert rows == [rows[0]] + rows[1..];
    }
  }

  /** Two sorted sequences with the same rows per key start with rows of the same key. */
  lemma StableHeadKey(a: seq<Row>, b: seq<Row>, p: nat, q: nat)
    requires Keyed(a, p, q) && Keyed(b, p, q)
    requires Sorted(a, p, q) && Sorted(b, p, q)
    requires forall k :: WithKey(a, p, q, k) == WithKey(b, p, q, k)
    requires a != [] && b != []
    ensures KeyOf(a[0], p, q) == KeyOf(b[0], p, q)
  {
    var ka, kb := KeyOf(a[0], p, q), KeyOf(b[0], p, q);
    WithKeyMembers(b, p, q, kb, b[0]);
    WithKeyMembers(a, p, q, kb, b[0]);
    var i :| 0 <= i < |a| && a[i] == b[0];
    WithKeyMembers(a, p, q, ka, a[0]);
    WithKeyMembers(b, p, q, ka, a[0]);
    var j :| 0 <= j < |b| && b[j] == a[0];
    assert KeyLe(ka, KeyOf(a[i], p, q)) && KeyLe(kb, KeyOf(b[j], p, q));
  }

  /** Dropping equal first rows keeps the per-key order equal. */
  lemma StableTails(a: seq<Row>, b: seq<Row>, p: nat, q: nat)
    requires Keyed(a, p, q) && Keyed(b, p, q)
    requires forall k :: WithKey(a, p, q, k) == WithKey(b, p, q, k)
    requires a != [] && b != [] && a[0] == b[0]
    ensures forall k :: WithKey(a[1..], p, q, k) == WithKey(b[1..], p, q, k)
  {
    forall k
      ensures WithKey(a[1..], p, q, k) == WithKey(b[1..], p, q, k)
    {
      var h := if KeyOf(a[0], p, q) == k then [a[0]] else [];
      assert WithKey(a, p, q, k) == h + WithKey(a[1..], p, q, k);
      assert WithKey(b, p, q, k) == h + WithKey(b[1..], p, q, k);
      assert WithKey(a[1..], p, q, k) == WithKey(a, p, q, k)[|h|..];
      assert WithKey(b[1..], p, q, k) == WithKey(b, p, q, k)[|h|..];
    }
  }

  /**
   Sortedness together with the per-key order determines a sequence: the
   three properties of `SortBy` pin its result down uniquely.
   */
  lemma {:induction false} StableUnique(a: seq<Row>, b: seq<Row>, p: nat, q: nat)
    requires Keyed(a, p, q) && Keyed(b, p, q)
    requires Sorted(a, p, q) && Sorted(b, p, q)
    requires forall k :: WithKey(a, p, q, k) == WithKey(b, p, q, k)
    ensures a == b
    decreases |a| + |b|
  {
    if a == [] || b == [] {
      if a != [] {
        WithKeyMembers(a, p, q, KeyOf(a[0], p, q), a[0]);
        assert false;
      } else if b != [] {
        WithKeyMembers(b, p, q, KeyOf(b[0], p, q), b[0]);
        assert false;
      }
    } else {
      var k := KeyOf(a[0], p, q);
      StableHeadKey(a, b, p, q);
      assert WithKey(a, p, q, k) == [a[0]] + WithKey(a[1..], p, q, k);
      assert WithKey(b, p, q, k) == [b[0]] + WithKey(b[1..], p, q, k);
      assert a[0] == WithKey(a, p, q, k)[0] == WithKey(b, p, q, k)[0] == b[0];
      StableTails(a, b, p, q);
      StableUnique(a[1..], b[1..], p, q);
      assert a == [a[0]] + a[1..] && b == [b[0]] + b[1..];
    }
  }
}
