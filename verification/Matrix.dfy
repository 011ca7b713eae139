/** Matrices: include/v1x/cqasm-primitives.hpp, their promotion in src/v1x/cqasm-values.cpp, and the flattening of
    unitaries in include/v10/qasm_new_to_old.hpp. */
module Matrices {
  import opened Wrappers

  datatype Complex = Complex(re: real, im: real)

  /** The place of an element, counted from one, in row-major order. */
  function Pos(cols: nat, row: nat, col: nat): int {
    (row - 1) * cols + col - 1
  }

  lemma PosBound(rows: nat, cols: nat, row: nat, col: nat)
    requires 1 <= row <= rows && 1 <= col <= cols
    ensures 0 <= Pos(cols, row, col) < rows * cols
  {
    assert (row - 1) * cols >= 0;
    assert rows * cols == (row - 1) * cols + (rows - row + 1) * cols;
    assert (rows - row + 1) * cols >= cols;
  }

  lemma PosNext(cols: nat, row: nat)
    ensures Pos(cols, row + 1, 1) == Pos(cols, row, cols + 1)
  {
  }

  class Matrix<T> {
    var data: array<T>
    var nrows: nat
    var ncols: nat

    ghost predicate Valid()
      reads this
    {
      data.Length == nrows * ncols
    }

    constructor (rows: nat, cols: nat, zero: T)
      ensures Valid() && fresh(data) && nrows == rows && ncols == cols
    {
      data := new T[rows * cols](_ => zero);
      nrows, ncols := rows, cols;
    }

    /** None for a range error. */
    method At(row: nat, col: nat) returns (v: Option<T>)
      requires Valid()
      ensures v.Some? <==> 1 <= row <= nrows && 1 <= col <= ncols
      ensures v.Some? ==> 0 <= Pos(ncols, row, col) < data.Length && v.value == data[Pos(ncols, row, col)]
    {
      if row < 1 || row > nrows || col < 1 || col > ncols {
        return None;
      }
      PosBound(nrows, ncols, row, col);
      return Some(data[(row - 1) * ncols + col - 1]);
    }

    /** Writing through the reference that at gives; false for a range error. */
    method Put(row: nat, col: nat, v: T) returns (ok: bool)
      requires Valid()
      modifies data
      ensures ok <==> 1 <= row <= nrows && 1 <= col <= ncols
      ensures ok ==> 0 <= Pos(ncols, row, col) < data.Length && data[Pos(ncols, row, col)] == v
      ensures forall k :: 0 <= k < data.Length && !(ok && k == Pos(ncols, row, col)) ==> data[k] == old(data[k])
    {
      if row < 1 || row > nrows || col < 1 || col > ncols {
        return false;
      }
      PosBound(nrows, ncols, row, col);
      data[(row - 1) * ncols + col - 1] := v;
      return true;
    }
  }

  /** The size asked for; a negative one leaves it open. */
  predicate SizeFits(m: Matrix<real>, numRows: int, numCols: int)
    reads m
  {
    (m.nrows == numRows || numRows < 0) && (m.ncols == numCols || numCols < 0)
  }

  /** A row of real and imaginary parts in turn, as old programs write a unitary matrix. */
  predicate OldStyle(m: Matrix<real>, numRows: int, numCols: int)
    reads m
  {
    numRows == numCols && numRows > 0 && m.nrows == 1 && m.ncols == 2 * numRows * numRows
  }

  /** The promotion of a real matrix to a complex matrix type; null if there is none. */
  method Promote(m: Matrix<real>, numRows: int, numCols: int) returns (r: Matrix?<Complex>)
    requires m.Valid()
    ensures r == null <==> !SizeFits(m, numRows, numCols) && !OldStyle(m, numRows, numCols)
    ensures r != null ==> fresh(r) && fresh(r.data) && r.Valid()
    ensures r != null ==> (numRows >= 0 ==> r.nrows == numRows) && (numCols >= 0 ==> r.ncols == numCols)
    ensures (numRows >= 0 ==> m.nrows == numRows) && (numCols >= 0 ==> m.ncols == numCols) ==> r != null
    ensures SizeFits(m, numRows, numCols) ==>
      r.nrows == m.nrows && r.ncols == m.ncols && forall k :: 0 <= k < r.data.Length ==>
        r.data[k] == Complex(m.data[k], 0.0)
    ensures !SizeFits(m, numRows, numCols) && OldStyle(m, numRows, numCols) ==>
      r.nrows == r.ncols == numRows && 2 * r.data.Length == m.data.Length
      && forall k :: 0 <= k < r.data.Length ==> r.data[k] == Complex(m.data[2 * k], m.data[2 * k + 1])
  {
    r := null;
    if SizeFits(m, numRows, numCols) {
      r := Widen(m);
    } else if OldStyle(m, numRows, numCols) {
      r := Unpack(m, numRows);
    }
  }

  method Widen(m: Matrix<real>) returns (r: Matrix<Complex>)
    requires m.Valid()
    ensures fresh(r) && fresh(r.data) && r.Valid() && r.nrows == m.nrows && r.ncols == m.ncols
    ensures forall k :: 0 <= k < r.data.Length ==> r.data[k] == Complex(m.data[k], 0.0)
  {
    var rows, cols := m.nrows, m.ncols;
    r := new Matrix(rows, cols, Complex(0.0, 0.0));
    var row := 1;
    while row <= rows
      invariant 1 <= row <= rows + 1 && fresh(r) && fresh(r.data) && r.Valid() && r.nrows == rows && r.ncols == cols
      invariant m.nrows == rows && m.ncols == cols
      invariant r.data.Length == m.data.Length
      invariant forall k :: 0 <= k < Pos(cols, row, 1) && k < r.data.Length ==> r.data[k] == Complex(m.data[k], 0.0)
    {
      var col := 1;
      while col <= cols
        invariant 1 <= col <= cols + 1 && fresh(r) && fresh(r.data) && r.Valid() && r.nrows == rows && r.ncols == cols
        invariant m.nrows == rows && m.ncols == cols
        invariant r.data.Length == m.data.Length
        invariant forall k :: 0 <= k < Pos(cols, row, col) && k < r.data.Length ==> r.data[k] == Complex(m.data[k], 0.0)
      {
        var v := m.At(row, col);
        var _ := r.Put(row, col, Complex(v.value, 0.0));
        col := col + 1;
      }
      PosNext(cols, row);
      row := row + 1;
    }
    AllPos(rows, cols);
  }

  lemma AllPos(rows: nat, cols: nat)
    ensures Pos(cols, rows + 1, 1) == rows * cols
  {
  }

  /** The running index over the old-style row. */
  method Unpack(m: Matrix<real>, size: nat) returns (r: Matrix<Complex>)
    requires m.Valid() && m.nrows == 1 && m.ncols == 2 * size * size
    ensures fresh(r) && fresh(r.data) && r.Valid() && r.nrows == size && r.ncols == size
    ensures 2 * r.data.Length == m.data.Length
    ensures forall k :: 0 <= k < r.data.Length ==> r.data[k] == Complex(m.data[2 * k], m.data[2 * k + 1])
  {
    r := new Matrix(size, size, Complex(0.0, 0.0));
    var index := 1;
    var row := 1;
    while row <= size
      invariant 1 <= row <= size + 1 && Unpacking(m, r, size) && fresh(r) && fresh(r.data)
      invariant index == 2 * Pos(size, row, 1) + 1
      invariant forall k :: 0 <= k < Pos(size, row, 1) && k < r.data.Length ==>
        r.data[k] == Complex(m.data[2 * k], m.data[2 * k + 1])
    {
      var col := 1;
      while col <= size
        invariant 1 <= col <= size + 1 && Unpacking(m, r, size) && fresh(r) && fresh(r.data)
        invariant index == 2 * Pos(size, row, col) + 1
        invariant forall k :: 0 <= k < Pos(size, row, col) && k < r.data.Length ==>
          r.data[k] == Complex(m.data[2 * k], m.data[2 * k + 1])
      {
        CopyPair(m, r, size, row, col, index);
        index := index + 2;
        col := col + 1;
      }
      PosNext(size, row);
      row := row + 1;
    }
    AllPos(size, size);
  }

  /** The place of an element, and those of its parts in a single row of cols columns. */
  lemma PairPlaces(size: nat, row: nat, col: nat, index: nat, n: nat, cols: nat)
    requires 1 <= row <= size && 1 <= col <= size && index == 2 * Pos(size, row, col) + 1 && n == size * size
    ensures 0 <= Pos(size, row, col) < n && 1 <= index < 2 * n
    ensures Pos(cols, 1, index) == index - 1 && Pos(cols, 1, index + 1) == index
  {
    PosBound(size, size, row, col);
  }

  method CopyPair(m: Matrix<real>, r: Matrix<Complex>, size: nat, row: nat, col: nat, index: nat)
    requires Unpacking(m, r, size) && 1 <= row <= size && 1 <= col <= size && index == 2 * Pos(size, row, col) + 1
    modifies r.data
    ensures 0 <= Pos(size, row, col) < r.data.Length
    ensures r.data[Pos(size, row, col)] == Complex(m.data[index - 1], m.data[index])
    ensures forall k :: 0 <= k < r.data.Length && k != Pos(size, row, col) ==> r.data[k] == old(r.data[k])
  {
    PairPlaces(size, row, col, index, r.data.Length, m.ncols);
    var re := m.At(1, index);
    var im := m.At(1, index + 1);
    var _ := r.Put(row, col, Complex(re.value, im.value));
  }

  ghost predicate Unpacking(m: Matrix<real>, r: Matrix<Complex>, size: nat)
    reads m, r
  {
    m.Valid() && m.nrows == 1 && r.Valid() && r.nrows == size && r.ncols == size
    && m.ncols == m.data.Length == 2 * r.data.Length && r.data.Length == size * size
  }

  /** The elements as the old interface wants them, real and imaginary parts in turn. */
  method Flatten(m: Matrix<Complex>) returns (out: seq<real>)
    requires m.Valid()
    ensures |out| == 2 * m.data.Length
    ensures forall k :: 0 <= k < m.data.Length ==> out[2 * k] == m.data[k].re && out[2 * k + 1] == m.data[k].im
  {
    out := [];
    var row := 1;
    while row <= m.nrows
      invariant 1 <= row <= m.nrows + 1 && |out| == 2 * Pos(m.ncols, row, 1) && Pos(m.ncols, row, 1) <= m.data.Length
      invariant forall k :: 0 <= k < Pos(m.ncols, row, 1) ==>
        out[2 * k] == m.data[k].re && out[2 * k + 1] == m.data[k].im
    {
      var col := 1;
      if m.ncols > 0 { PosBound(m.nrows, m.ncols, row, m.ncols); }
      while col <= m.ncols
        invariant 1 <= col <= m.ncols + 1 && |out| == 2 * Pos(m.ncols, row, col)
        invariant Pos(m.ncols, row, col) <= m.data.Length
        invariant forall k :: 0 <= k < Pos(m.ncols, row, col) ==>
          out[2 * k] == m.data[k].re && out[2 * k + 1] == m.data[k].im
      {
        PosBound(m.nrows, m.ncols, row, col);
        var v := m.At(row, col);
        out := out + [v.value.re];
        out := out + [v.value.im];
        col := col + 1;
      }
      PosNext(m.ncols, row);
      row := row + 1;
    }
    AllPos(m.nrows, m.ncols);
  }

  /** What an old program writes for an n by n unitary is what the old interface hands out. */
  method OldStyleRoundTrip(m: Matrix<real>, n: nat) returns (out: seq<real>)
    requires m.Valid() && n > 0 && m.nrows == 1 && m.ncols == 2 * n * n
    ensures out == m.data[..]
  {
    assert !SizeFits(m, n, n) by {
      if n == 1 { assert m.ncols == 2; }
    }
    var c := Promote(m, n, n);
    out := Flatten(c);
    forall i | 0 <= i < |out| ensures out[i] == m.data[i] {
      var k := i / 2;
      assert c.data[k] == Complex(m.data[2 * k], m.data[2 * k + 1]);
      assert out[2 * k] == c.data[k].re && out[2 * k + 1] == c.data[k].im;
    }
  }
}
