/** Tables as the pipeline sees them: a pandas DataFrame reduced to an
    ordered list of column labels and an ordered list of rows, each row a
    map from column label to cell. A cell that a row does not hold reads as
    Null, which is how pandas fills the columns a record did not mention. */
module Frames {

  datatype Option<+T> = None | Some(value: T)

  datatype Result<+T, +E> = Ok(value: T) | Err(error: E)

  /** One cell. Null stands for a missing value, NaN and every other
      non-finite float; Int and Real are the numeric cells. */
  datatype Datum = Null | Int(i: int) | Real(x: real) | Text(s: string)

  type Row = map<Datum, Datum>

  datatype Frame = Frame(columns: seq<Datum>, rows: seq<Row>)

  /** `row[c]`, with pandas' NaN for a column the row does not mention. */
  function Cell(r: Row, c: Datum): Datum
  {
    if c in r then r[c] else Null
  }

  /** The cells of a row under the given columns. */
  function KeyOf(r: Row, cols: seq<Datum>): seq<Datum>
  {
    seq(|cols|, i requires 0 <= i < |cols| => Cell(r, cols[i]))
  }

  lemma KeyOfAppend(r: Row, a: seq<Datum>, b: seq<Datum>)
    ensures KeyOf(r, a + b) == KeyOf(r, a) + KeyOf(r, b)
  {
  }

  predicate IsNumeric(d: Datum)
  {
    d.Int? || d.Real?
  }

  /** The numeric value of a cell; 0 for a cell that is not a number
      (only ever used where every cell is known to be numeric). */
  function NumValue(d: Datum): real
  {
    match d
    case Int(i) => i as real
    case Real(x) => x
    case _ => 0.0
  }

  /** Python's `a in b` on strings. */
  predicate IsSubstring(a: string, b: string)
  {
    exists i :: 0 <= i <= |b| - |a| && OccursAt(a, b, i)
  }

  predicate OccursAt(a: string, b: string, i: int)
  {
    0 <= i <= |b| - |a| && b[i..i + |a|] == a
  }

  /** No element occurs twice. */
  predicate Distinct<T(==)>(s: seq<T>)
  {
    forall i, j :: 0 <= i < j < |s| ==> s[i] != s[j]
  }

  /** The elements of `s` in order of first occurrence. */
  function Dedup<T(==,!new)>(s: seq<T>): (r: seq<T>)
    ensures forall x :: x in r <==> x in s
    ensures Distinct(r)
    ensures |r| <= |s|
  {
    if s == [] then []
    else
      var d := Dedup(s[..|s| - 1]);
      assert s == s[..|s| - 1] + [s[|s| - 1]];
      if s[|s| - 1] in d then d else d + [s[|s| - 1]]
  }

  lemma {:induction false} DedupOfDistinct<T(!new)>(s: seq<T>)
    requires Distinct(s)
    ensures Dedup(s) == s
  {
    if s != [] {
      var p := s[..|s| - 1];
      assert Distinct(p);
      DedupOfDistinct(p);
      assert s[|s| - 1] !in p by {
        forall k | 0 <= k < |p| ensures p[k] != s[|s| - 1] {
          assert s[k] != s[|s| - 1];
        }
      }
      assert s == p + [s[|s| - 1]];
    }
  }

  function Sum(xs: seq<real>): real
  {
    if xs == [] then 0.0 else Sum(xs[..|xs| - 1]) + xs[|xs| - 1]
  }

  function Mean(xs: seq<real>): real
    requires |xs| > 0
  {
    Sum(xs) / (|xs| as real)
  }

  lemma MeanOfSingleton(x: real)
    ensures Mean([x]) == x
  {
    assert [x][..0] == [];
    assert Sum([x]) == Sum([]) + x;
  }

  /** The rows of a frame that satisfy `keep`, in their original order. */
  function FilterRows(rows: seq<Row>, keep: Row -> bool): (r: seq<Row>)
    ensures |r| <= |rows|
    ensures forall x :: x in r <==> x in rows && keep(x)
  {
    if rows == [] then []
    else
      var p := FilterRows(rows[..|rows| - 1], keep);
      assert rows == rows[..|rows| - 1] + [rows[|rows| - 1]];
      if keep(rows[|rows| - 1]) then p + [rows[|rows| - 1]] else p
  }

  lemma {:induction false} FilterRowsAll(rows: seq<Row>, keep: Row -> bool)
    requires forall x :: x in rows ==> keep(x)
    ensures FilterRows(rows, keep) == rows
  {
    if rows != [] {
      var n := |rows| - 1;
      var p := rows[..n];
      assert forall x :: x in p ==> x in rows;
      FilterRowsAll(p, keep);
      assert keep(rows[n]);
      assert FilterRows(rows, keep) == p + [rows[n]];
      assert p + [rows[n]] == rows;
    }
  }

  /** The first kept row is the first row of the input that `keep`
      accepts. */
  lemma {:induction false} FilterRowsFirst(rows: seq<Row>, keep: Row -> bool)
    requires FilterRows(rows, keep) != []
    ensures exists i :: 0 <= i < |rows| && keep(rows[i]) && FilterRows(rows, keep)[0] == rows[i]
                        && forall j :: 0 <= j < i ==> !keep(rows[j])
  {
    var n := |rows| - 1;
    var p := FilterRows(rows[..n], keep);
    if p != [] {
      FilterRowsFirst(rows[..n], keep);
      var i :| 0 <= i < n && keep(rows[..n][i]) && p[0] == rows[..n][i]
               && forall j :: 0 <= j < i ==> !keep(rows[..n][j]);
      assert forall j :: 0 <= j < i ==> rows[..n][j] == rows[j];
    } else {
      forall j | 0 <= j < n ensures !keep(rows[j]) {
        assert rows[j] in rows[..n];
        assert rows[..n][j] == rows[j];
      }
    }
  }

  lemma {:induction false} FilterRowsOfAppend(a: seq<Row>, b: seq<Row>, keep: Row -> bool)
    ensures FilterRows(a + b, keep) == FilterRows(a, keep) + FilterRows(b, keep)
    decreases |b|
  {
    if b == [] {
      assert a + b == a;
    } else {
      var b' := b[..|b| - 1];
      assert (a + b)[..|a + b| - 1] == a + b';
      assert (a + b)[|a + b| - 1] == b[|b| - 1];
      FilterRowsOfAppend(a, b', keep);
    }
  }

  /** The concatenation of a sequence of sequences, in order. */
  function Flatten<T>(parts: seq<seq<T>>): seq<T>
  {
    if parts == [] then [] else Flatten(parts[..|parts| - 1]) + parts[|parts| - 1]
  }

  lemma {:induction false} FlattenAppend<T>(a: seq<seq<T>>, b: seq<seq<T>>)
    ensures Flatten(a + b) == Flatten(a) + Flatten(b)
    decreases |b|
  {
    if b == [] {
      assert a + b == a;
    } else {
      var n := |b| - 1;
      FlattenAppend(a, b[..n]);
      assert (a + b)[..|a + b| - 1] == a + b[..n];
    }
  }

  lemma {:induction false} FlattenMember<T>(parts: seq<seq<T>>, x: T)
    ensures x in Flatten(parts) <==> exists i :: 0 <= i < |parts| && x in parts[i]
  {
    if parts != [] {
      var n := |parts| - 1;
      FlattenMember(parts[..n], x);
      assert forall i :: 0 <= i < n ==> parts[..n][i] == parts[i];
    }
  }

  /** The first of `want` that is not in `have`: the column pandas'
      lookup raises `KeyError` on. */
  function FirstMissing(want: seq<Datum>, have: seq<Datum>): (r: Option<Datum>)
    ensures r.None? <==> forall c :: c in want ==> c in have
    ensures r.Some? ==> exists i :: 0 <= i < |want| && want[i] == r.value && r.value !in have
                                    && forall j :: 0 <= j < i ==> want[j] in have
  {
    if want == [] then None
    else if want[0] !in have then Some(want[0])
    else
      assert forall j :: 0 <= j < |want| - 1 ==> want[1..][j] == want[j + 1];
      FirstMissing(want[1..], have)
  }

  /** A mean of copies of one value is that value. */
  lemma {:induction false} MeanOfConstant(xs: seq<real>, x: real)
    requires |xs| > 0 && forall i :: 0 <= i < |xs| ==> xs[i] == x
    ensures Mean(xs) == x
  {
    SumOfConstant(xs, x);
  }

  lemma {:induction false} SumOfConstant(xs: seq<real>, x: real)
    requires forall i :: 0 <= i < |xs| ==> xs[i] == x
    ensures Sum(xs) == (|xs| as real) * x
  {
    if xs != [] {
      SumOfConstant(xs[..|xs| - 1], x);
    }
  }

  /** Flattening blocks of equal width w: there are |parts| * w elements,
      and element j of block i sits at i * w + j. */
  lemma {:induction false} FlattenUniform<T>(parts: seq<seq<T>>, w: nat)
    requires forall i :: 0 <= i < |parts| ==> |parts[i]| == w
    ensures |Flatten(parts)| == |parts| * w
    ensures forall i, j :: 0 <= i < |parts| && 0 <= j < w ==> i * w + j < |Flatten(parts)| && Flatten(parts)[i * w + j] == parts[i][j]
  {
    if parts != [] {
      var n := |parts| - 1;
      var p := parts[..n];
      FlattenUniform(p, w);
      assert |Flatten(parts)| == n * w + w;
      forall i, j | 0 <= i < |parts| && 0 <= j < w
        ensures i * w + j < |Flatten(parts)| && Flatten(parts)[i * w + j] == parts[i][j]
      {
        if i < n {
          MulLess(i, n, w, j);
          assert p[i] == parts[i];
        } else {
          assert i * w == n * w;
        }
      }
    }
  }

  lemma MulLess(i: nat, n: nat, w: nat, j: nat)
    requires i < n && j < w
    ensures i * w + j < n * w
  {
    assert (i + 1) * w <= n * w by {
      MulMono(i + 1, n, w);
    }
  }

  lemma MulMono(a: nat, b: nat, w: nat)
    requires a <= b
    ensures a * w <= b * w
  {
  }
}
