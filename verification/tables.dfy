/**
 Numeric tables as the trajectory tools see them: a table is a sequence of
 rows and a row a sequence of real cells. Values are only compared and
 copied, never computed with, so `real` stands for the source's floats.
 */
module Tables {

  type Row = seq<real>

  /** Every row has a cell at column `c`. */
  predicate HasColumn(rows: seq<Row>, c: nat) {
    forall r :: r in rows ==> c < |r|
  }

  /** The selector of column `c` as a partial function on rows. */
  function Cell(c: nat): Row --> real {
    (r: Row) requires c < |r| => r[c]
  }

  /** Applies `f` to every element of `s`, keeping the order. */
  function Map<T, U>(f: T --> U, s: seq<T>): seq<U>
    requires forall x :: x in s ==> f.requires(x)
  {
    seq(|s|, i requires 0 <= i < |s| => f(s[i]))
  }

  /** Column `c` of `rows`, one value per row: numpy's `rows[:, c]`. */
  function Column(rows: seq<Row>, c: nat): seq<real>
    requires HasColumn(rows, c)
  {
    seq(|rows|, i requires 0 <= i < |rows| => rows[i][c])
  }

  /** One output cell: a copy of an input column, or the constant 0. */
  datatype Source = Col(index: nat) | Zero

  /** Every copied column exists in a row of length `width`. */
  predicate Fits(cells: seq<Source>, width: nat) {
    forall s :: s in cells && s.Col? ==> s.index < width
  }

  /** The row built by taking, for each output cell, the named input column or 0. */
  function ProjectRow(r: Row, cells: seq<Source>): Row
    requires Fits(cells, |r|)
  {
    seq(|cells|, i requires 0 <= i < |cells| =>
      match cells[i]
      case Col(c) => r[c]
      case Zero => 0.0)
  }

  /** Projecting through three copied columns picks those three cells. */
  lemma ProjectTriple(r: Row, a: nat, b: nat, c: nat)
    requires a < |r| && b < |r| && c < |r|
    ensures Fits([Col(a), Col(b), Col(c)], |r|)
    ensures ProjectRow(r, [Col(a), Col(b), Col(c)]) == [r[a], r[b], r[c]]
  {
  }

  function Projector(cells: seq<Source>): Row --> Row {
    (r: Row) requires Fits(cells, |r|) => ProjectRow(r, cells)
  }

  /** Every row of `rows` projected through `cells`. */
  function ProjectRows(rows: seq<Row>, cells: seq<Source>): seq<Row>
    requires forall r :: r in rows ==> Fits(cells, |r|)
  {
    seq(|rows|, i requires 0 <= i < |rows| => ProjectRow(rows[i], cells))
  }

  /** Removing the first element of `a` and one copy of it from a permutation `b` leaves permutations. */
  lemma PermutationRemove<T>(a: seq<T>, b: seq<T>, i: nat)
    requires multiset(a) == multiset(b) && a != []
    requires i < |b| && b[i] == a[0]
    ensures multiset(a[1..]) == multiset(b[..i] + b[i + 1..])
  {
    assert a == [a[0]] + a[1..];
    assert b == b[..i] + [b[i]] + b[i + 1..];
    forall y
      ensures multiset(a[1..])[y] == multiset(b[..i] + b[i + 1..])[y]
    {
      assert multiset(a)[y] == multiset([a[0]])[y] + multiset(a[1..])[y];
      assert multiset(b)[y] == multiset(b[..i])[y] + multiset([a[0]])[y] + multiset(b[i + 1..])[y];
    }
  }

  /** Two permutations of each other that start alike continue as permutations of each other. */
  lemma TailPermutation<T>(a: seq<T>, b: seq<T>)
    requires multiset(a) == multiset(b) && a != [] && b != [] && a[0] == b[0]
    ensures multiset(a[1..]) == multiset(b[1..])
  {
    assert a == [a[0]] + a[1..];
    assert b == [b[0]] + b[1..];
    forall y
      ensures multiset(a[1..])[y] == multiset(b[1..])[y]
    {
      assert multiset(a)[y] == multiset([a[0]])[y] + multiset(a[1..])[y];
      assert multiset(b)[y] == multiset([a[0]])[y] + multiset(b[1..])[y];
    }
  }

  /** Removing the element at `i` before or after mapping gives the same multiset. */
  lemma MapRemoveAt<T, U>(f: T --> U, s: seq<T>, i: nat)
    requires i < |s|
    requires forall x :: x in s ==> f.requires(x)
    ensures multiset(Map(f, s)) == multiset(Map(f, s[..i] + s[i + 1..])) + multiset{f(s[i])}
  {
    var pre, post := s[..i], s[i + 1..];
    assert s == pre + [s[i]] + post;
    assert Map(f, s) == Map(f, pre) + [f(s[i])] + Map(f, post);
    assert Map(f, pre + post) == Map(f, pre) + Map(f, post);
  }

  /** Mapping a function over two permutations of each other gives two permutations of each other. */
  lemma {:induction false} MapPermutation<T, U>(f: T --> U, a: seq<T>, b: seq<T>)
    requires forall x :: x in a ==> f.requires(x)
    requires multiset(a) == multiset(b)
    ensures forall x :: x in b ==> f.requires(x)
    ensures multiset(Map(f, a)) == multiset(Map(f, b))
    decreases |a|
  {
    assert forall x :: x in b ==> f.requires(x) by {
      assert forall x :: x in b ==> x in multiset(a);
    }
    if a == [] {
      assert |b| == |multiset(b)| == 0;
    } else {
      assert a[0] in multiset(b);
      var i :| 0 <= i < |b| && b[i] == a[0];
      PermutationRemove(a, b, i);
      assert a[..0] + a[1..] == a[1..];
      MapPermutation(f, a[1..], b[..i] + b[i + 1..]);
      MapRemoveAt(f, a, 0);
      MapRemoveAt(f, b, i);
    }
  }

  /** Permuting rows permutes every column the same way. */
  lemma ColumnPermutation(a: seq<Row>, b: seq<Row>, c: nat)
    requires HasColumn(a, c)
    requires multiset(a) == multiset(b)
    ensures HasColumn(b, c)
    ensures multiset(Column(a, c)) == multiset(Column(b, c))
  {
    assert forall r :: r in b ==> r in multiset(a);
    MapPermutation(Cell(c), a, b);
    assert Column(a, c) == Map(Cell(c), a) && Column(b, c) == Map(Cell(c), b);
  }

  /** Permuting rows permutes their projections the same way. */
  lemma ProjectionPermutation(a: seq<Row>, b: seq<Row>, cells: seq<Source>)
    requires forall r :: r in a ==> Fits(cells, |r|)
    requires multiset(a) == multiset(b)
    ensures forall r :: r in b ==> Fits(cells, |r|)
    ensures multiset(ProjectRows(a, cells)) == multiset(ProjectRows(b, cells))
  {
    assert forall r :: r in b ==> r in multiset(a);
    MapPermutation(Projector(cells), a, b);
    assert ProjectRows(a, cells) == Map(Projector(cells), a) && ProjectRows(b, cells) == Map(Projector(cells), b);
  }
}
