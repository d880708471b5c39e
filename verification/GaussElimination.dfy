/** Gauss-Jordan elimination in place on the two matrix arrays. */
module GaussElimination {
  import opened Fields
  import opened Vectors
  import opened Elimination
  import opened RowArrays

  /** The entries of `a` from `from` up to `to` are zero. */
  ghost predicate ZeroFrom<T(!new)>(f: Field<T>, a: seq<T>, from: nat, to: nat)
    requires from <= to <= |a|
  {
    forall j :: from <= j < to ==> a[j] == f.zero
  }

  /** Only row `r` of `s'` differs from `s`, and it is `a`. */
  ghost predicate RowReplaced<T>(s: seq<T>, s': seq<T>, rows: nat, cols: nat, r: nat, a: seq<T>)
    requires |s| == rows * cols && r < rows
  {
    && |s'| == |s|
    && RowOf(s', rows, cols, r) == a
    && forall q :: 0 <= q < rows && q != r ==> RowOf(s', rows, cols, q) == RowOf(s, rows, cols, q)
  }

  lemma AugmentedReplaced<T>(l: seq<T>, l': seq<T>, leftcols: nat, s: seq<T>, s': seq<T>, rows: nat, r: nat, a: seq<T>,
                             b: seq<T>)
    requires |l| == rows * leftcols && |s| == rows * rows && r < rows
    requires RowReplaced(l, l', rows, leftcols, r, a) && RowReplaced(s, s', rows, rows, r, b)
    ensures Augmented(l', leftcols, s', rows) == Augmented(l, leftcols, s, rows)[r := a + b]
  {
    var m, m' := Augmented(l, leftcols, s, rows), Augmented(l', leftcols, s', rows);
    assert |a| == leftcols && |b| == rows;
    forall q | 0 <= q < rows ensures m'[q] == m[r := a + b][q] {
      if q != r {
        assert RowOf(l', rows, leftcols, q) == RowOf(l, rows, leftcols, q);
        assert RowOf(s', rows, rows, q) == RowOf(s, rows, rows, q);
      }
    }
  }

  lemma WholeRow<T>(s: seq<T>, rows: nat, cols: nat, r: nat, a: seq<T>)
    requires |s| == rows * cols && r < rows && |a| == cols
    ensures 0 <= r * cols && r * cols + cols <= |s|
    ensures RowReplaced(s, Overwrite(s, r * cols, a), rows, cols, r, a)
  {
    OverwriteRow(s, rows, cols, r, 0, a);
  }

  // The right half of a row, where the pivot sits at index `r`.
  lemma RightPart<T(!new)>(f: Field<T>, l: seq<T>, leftcols: nat, s: seq<T>, rows: nat, r: nat)
    requires |l| == rows * leftcols && |s| == rows * rows && r < rows
    ensures var a, b := Augmented(l, leftcols, s, rows)[r], RowOf(s, rows, rows, r);
            b[r] == a[leftcols + r] && (ZeroFrom(f, a, leftcols, leftcols + r) ==> ZeroFrom(f, b, 0, r))
  {
    var a, b := Augmented(l, leftcols, s, rows)[r], RowOf(s, rows, rows, r);
    forall j | 0 <= j < rows ensures b[j] == a[leftcols + j] {}
  }

  lemma DivideTail<T(!new)>(f: Field<T>, b: seq<T>, row: nat, pivot: T)
    requires Everywhere(f) && row < |b| && b[row] == pivot != f.zero
    requires ZeroFrom(f, b, 0, row)
    ensures Overwrite(Overwrite(b, row, [f.one]), row + 1, Divided(f, b[row + 1..], pivot)) == Divided(f, b, pivot)
  {
    DivZero(f, pivot);
  }

  lemma DivideByOne<T(!new)>(f: Field<T>, a: seq<T>)
    requires Everywhere(f)
    ensures Divided(f, a, f.one) == a
  {
    forall j | 0 <= j < |a| ensures f.div(a[j], f.one) == a[j] { DivOne(f, a[j]); }
  }

  lemma OverwriteWithin<T>(s: seq<T>, start: nat, row: seq<T>, c: nat, part: seq<T>)
    requires start + |row| <= |s| && c + |part| <= |row|
    ensures Overwrite(Overwrite(s, start, row), start + c, part) == Overwrite(s, start, Overwrite(row, c, part))
  {}

  /** A row of the right matrix: its pivot becomes one, and what follows it is divided. */
  method ScaleRightRow<T(==,!new)>(f: Field<T>, right: array<T>, start: nat, rows: nat, row: nat, pivot: T)
    requires Everywhere(f) && row < rows && start + rows <= right.Length
    requires var b := right[..][start..start + rows]; b[row] == pivot && pivot != f.zero && ZeroFrom(f, b, 0, row)
    modifies right
    ensures var s := old(right[..]); right[..] == Overwrite(s, start, Divided(f, s[start..start + rows], pivot))
  {
    ghost var s := right[..];
    var at, len := start + row + 1, rows - row - 1;
    ScaleFrom(f, s, start, rows, row, at, len, pivot);
    right[start + row] := f.one;
    assert right[..] == Overwrite(s, start + row, [f.one]);
    DivideStretch(f, right, at, len, pivot);
  }

  lemma ScaleFrom<T(!new)>(f: Field<T>, s: seq<T>, start: nat, rows: nat, row: nat, at: nat, len: nat, pivot: T)
    requires Everywhere(f) && row < rows && start + rows <= |s| && at == start + row + 1 && len == rows - row - 1
    requires var b := s[start..start + rows]; b[row] == pivot && pivot != f.zero && ZeroFrom(f, b, 0, row)
    ensures var s1 := Overwrite(s, start + row, [f.one]);
            Overwrite(s1, at, Divided(f, s1[at..at + len], pivot))
            == Overwrite(s, start, Divided(f, s[start..start + rows], pivot))
  {
    var b, s1 := s[start..start + rows], Overwrite(s, start + row, [f.one]);
    OverwriteSame(s, start, rows);
    assert s1[at..at + len] == b[row + 1..];
    OverwriteWithin(s, start, b, row, [f.one]);
    OverwriteWithin(s, start, Overwrite(b, row, [f.one]), row + 1, Divided(f, b[row + 1..], pivot));
    DivideTail(f, b, row, pivot);
  }

  /** The pivot row divided by its pivot; entries left of the pivot are zero and stay as they are. */
  method ScalePivotRow<T(==,!new)>(f: Field<T>, rows: nat, leftcols: nat, left: array<T>, right: array<T>, row: nat)
    requires Everywhere(f) && left != right && row < rows
    requires left.Length == rows * leftcols && right.Length == rows * rows
    requires var m := Augmented(left[..], leftcols, right[..], rows);
             m[row][leftcols + row] != f.zero && ZeroFrom(f, m[row], leftcols, leftcols + row)
    modifies left, right
    ensures Augmented(left[..], leftcols, right[..], rows)
         == Scaled(f, old(Augmented(left[..], leftcols, right[..], rows)), leftcols + row, row)
  {
    ghost var l, s := left[..], right[..];
    RightPart(f, l, leftcols, s, rows, row);
    ghost var a, b := RowOf(l, rows, leftcols, row), RowOf(s, rows, rows, row);
    RowFits(rows, leftcols, row);
    RowFits(rows, rows, row);
    var pivot := right[row * rows + row];
    assert Divided(f, a + b, pivot) == Divided(f, a, pivot) + Divided(f, b, pivot);
    if pivot != f.one {
      DivideStretch(f, left, row * leftcols, leftcols, pivot);
      WholeRow(l, rows, leftcols, row, Divided(f, a, pivot));
      ScaleRightRow(f, right, row * rows, rows, row, pivot);
      WholeRow(s, rows, rows, row, Divided(f, b, pivot));
      AugmentedReplaced(l, left[..], leftcols, s, right[..], rows, row, Divided(f, a, pivot), Divided(f, b, pivot));
    } else {
      DivideByOne(f, a + b);
    }
  }

  lemma SubtractTail<T(!new)>(f: Field<T>, a: seq<T>, b: seq<T>, row: nat, k: T)
    requires Everywhere(f) && |a| == |b| && row <= |b|
    requires ZeroFrom(f, b, 0, row)
    ensures Overwrite(a, row, Reduced(f, a[row..], b[row..], k)) == Reduced(f, a, b, k)
  {
    forall j | 0 <= j < row ensures f.add(a[j], f.mul(f.zero, k)) == a[j] {
      Products(f, k, k);
      Products(f, a[j], k);
    }
  }

  lemma SubtractNothing<T(!new)>(f: Field<T>, a: seq<T>, b: seq<T>)
    requires Everywhere(f) && |a| == |b|
    ensures Reduced(f, a, b, f.zero) == a
  {
    forall j | 0 <= j < |a| ensures f.add(a[j], f.mul(b[j], f.zero)) == a[j] {
      Products(f, b[j], f.zero);
      Products(f, a[j], f.zero);
    }
  }

  lemma TailSlice<T>(s: seq<T>, at: nat, cols: nat, from: nat, d: nat, len: nat)
    requires at + cols <= |s| && from + len == cols && d == at + from
    ensures s[d..d + len] == s[at..at + cols][from..]
  {}

  lemma OverwriteSame<T>(s: seq<T>, at: nat, n: nat)
    requires at + n <= |s|
    ensures Overwrite(s, at, s[at..at + n]) == s
  {}

  // Starting at column `from` makes no difference when the row at `src` is zero before it.
  lemma SubtractFrom<T(!new)>(f: Field<T>, s: seq<T>, dst: nat, src: nat, cols: nat, from: nat, d: nat, r: nat,
                              len: nat, k: T)
    requires Everywhere(f) && from + len == cols && dst + cols <= |s| && src + cols <= |s|
    requires d == dst + from && r == src + from
    requires ZeroFrom(f, s[src..src + cols], 0, from)
    ensures Overwrite(s, d, Reduced(f, s[d..d + len], s[r..r + len], k))
         == Overwrite(s, dst, Reduced(f, s[dst..dst + cols], s[src..src + cols], k))
  {
    var x, y := s[dst..dst + cols], s[src..src + cols];
    TailSlice(s, dst, cols, from, d, len);
    TailSlice(s, src, cols, from, r, len);
    OverwriteSame(s, dst, cols);
    OverwriteWithin(s, dst, x, from, Reduced(f, x[from..], y[from..], k));
    SubtractTail(f, x, y, from, k);
  }

  /** `k` times the row at `src` taken away from the row at `dst`, from column `from` on. */
  method SubtractRow<T(==,!new)>(f: Field<T>, a: array<T>, dst: nat, src: nat, cols: nat, from: nat, k: T)
    requires Everywhere(f) && from <= cols && dst + cols <= a.Length && src + cols <= a.Length
    requires dst + cols <= src || src + cols <= dst
    requires ZeroFrom(f, a[..][src..src + cols], 0, from)
    modifies a
    ensures var s := old(a[..]); a[..] == Overwrite(s, dst, Reduced(f, s[dst..dst + cols], s[src..src + cols], k))
  {
    var d, r, len := dst + from, src + from, cols - from;
    SubtractFrom(f, a[..], dst, src, cols, from, d, r, len, k);
    SubtractMultiple(f, a, d, r, len, k);
  }

  lemma TwoRows(rows: nat, cols: nat, r: nat, q: nat)
    requires r < rows && q < rows && r != q
    ensures 0 <= r * cols && r * cols + cols <= rows * cols
    ensures 0 <= q * cols && q * cols + cols <= rows * cols
    ensures r * cols + cols <= q * cols || q * cols + cols <= r * cols
  {
    RowFits(rows, cols, r);
    RowFits(rows, cols, q);
    if r < q { RowsApart(cols, r, q); } else { RowsApart(cols, q, r); }
  }

  method SubtractMatrixRow<T(==,!new)>(f: Field<T>, a: array<T>, rows: nat, cols: nat, row: nat, row2: nat, from: nat,
                                       k: T)
    requires Everywhere(f) && row < rows && row2 < rows && row != row2 && from <= cols && a.Length == rows * cols
    requires ZeroFrom(f, RowOf(a[..], rows, cols, row), 0, from)
    modifies a
    ensures RowReplaced(old(a[..]), a[..], rows, cols, row2,
                        Reduced(f, RowOf(old(a[..]), rows, cols, row2), RowOf(old(a[..]), rows, cols, row), k))
  {
    ghost var s := a[..];
    TwoRows(rows, cols, row, row2);
    var dst, src := row2 * cols, row * cols;
    SubtractRow(f, a, dst, src, cols, from, k);
    WholeRow(s, rows, cols, row2, Reduced(f, RowOf(s, rows, cols, row2), RowOf(s, rows, cols, row), k));
  }

  /** Row `row2` with the right multiple of row `row` taken away to clear column `row`. */
  method ClearRow<T(==,!new)>(f: Field<T>, rows: nat, leftcols: nat, left: array<T>, right: array<T>, row: nat,
                              row2: nat)
    requires Everywhere(f) && left != right && row < rows && row2 < rows && row != row2
    requires left.Length == rows * leftcols && right.Length == rows * rows
    requires ZeroFrom(f, Augmented(left[..], leftcols, right[..], rows)[row], leftcols, leftcols + row)
    modifies left, right
    ensures
      var m := old(Augmented(left[..], leftcols, right[..], rows));
      Augmented(left[..], leftcols, right[..], rows) == m[row2 := Reduced(f, m[row2], m[row], m[row2][leftcols + row])]
  {
    ghost var l, s := left[..], right[..];
    ghost var m := Augmented(l, leftcols, s, rows);
    RightPart(f, l, leftcols, s, rows, row);
    TwoRows(rows, rows, row, row2);
    var scale := right[row2 * rows + row];
    assert scale == m[row2][leftcols + row];
    if scale != f.zero {
      ghost var a := Reduced(f, RowOf(l, rows, leftcols, row2), RowOf(l, rows, leftcols, row), scale);
      ghost var b := Reduced(f, RowOf(s, rows, rows, row2), RowOf(s, rows, rows, row), scale);
      SubtractMatrixRow(f, left, rows, leftcols, row, row2, 0, scale);
      SubtractMatrixRow(f, right, rows, rows, row, row2, row, scale);
      AugmentedReplaced(l, left[..], leftcols, s, right[..], rows, row2, a, b);
      assert a + b == Reduced(f, m[row2], m[row], scale);
    } else {
      SubtractNothing(f, m[row2], m[row]);
    }
  }

  /** Rows below `done` have had column `row` cleared. */
  ghost predicate PartlyCleared<T(!new)>(f: Field<T>, m: Matrix<T>, t: Matrix<T>, c: nat, row: nat, done: nat)
    requires row < |m| && Shape(m, |m[row]|) && c < |m[row]|
  {
    && |t| == |m|
    && forall r :: 0 <= r < |m| ==> t[r] == if r < done then Cleared(f, m, c, row)[r] else m[r]
  }

  lemma ClearOneMore<T(!new)>(f: Field<T>, m: Matrix<T>, t: Matrix<T>, c: nat, row: nat, row2: nat)
    requires row < |m| && Shape(m, |m[row]|) && c < |m[row]| && row2 < |m|
    requires PartlyCleared(f, m, t, c, row, row2)
    ensures row != row2 ==>
              && |t[row2]| == |t[row]| == |m[row]|
              && PartlyCleared(f, m, t[row2 := Reduced(f, t[row2], t[row], t[row2][c])], c, row, row2 + 1)
    ensures row == row2 ==> PartlyCleared(f, m, t, c, row, row2 + 1)
  {
    assert t[row] == m[row] && t[row2] == m[row2];
  }

  lemma ClearedAll<T(!new)>(f: Field<T>, m: Matrix<T>, t: Matrix<T>, c: nat, row: nat)
    requires row < |m| && Shape(m, |m[row]|) && c < |m[row]|
    requires PartlyCleared(f, m, t, c, row, |m|)
    ensures t == Cleared(f, m, c, row)
  {}

  lemma PivotRowPrefix<T(!new)>(f: Field<T>, m: Matrix<T>, c0: nat, p: nat)
    requires Everywhere(f) && Shape(m, c0 + |m|) && p < |m| && UnitColumns(f, m, c0, p) && m[p][c0 + p] != f.zero
    ensures ZeroFrom(f, m[p], c0, c0 + p)
    ensures ZeroFrom(f, Scaled(f, m, c0 + p, p)[p], c0, c0 + p)
  {
    DivZero(f, m[p][c0 + p]);
  }

  /** One elimination step on the arrays. */
  method EliminateColumn<T(==,!new)>(f: Field<T>, rows: nat, leftcols: nat, left: array<T>, right: array<T>, row: nat)
    requires Everywhere(f) && left != right && row < rows
    requires left.Length == rows * leftcols && right.Length == rows * rows
    requires UnitColumns(f, Augmented(left[..], leftcols, right[..], rows), leftcols, row)
    requires Augmented(left[..], leftcols, right[..], rows)[row][leftcols + row] != f.zero
    modifies left, right
    ensures Augmented(left[..], leftcols, right[..], rows)
         == Step(f, old(Augmented(left[..], leftcols, right[..], rows)), leftcols + row, row)
  {
    ghost var before, c := Augmented(left[..], leftcols, right[..], rows), leftcols + row;
    PivotRowPrefix(f, before, leftcols, row);
    ScalePivotRow(f, rows, leftcols, left, right, row);
    ghost var m := Scaled(f, before, c, row);
    ghost var t := m;
    for row2 := 0 to rows
      invariant t == Augmented(left[..], leftcols, right[..], rows)
      invariant PartlyCleared(f, m, t, c, row, row2)
    {
      ClearOneMore(f, m, t, c, row, row2);
      if row != row2 {
        ClearRow(f, rows, leftcols, left, right, row, row2);
        t := t[row2 := Reduced(f, t[row2], t[row], t[row2][c])];
      }
    }
    ClearedAll(f, m, t, c, row);
  }

  lemma NextPivot<T(!new)>(f: Field<T>, m: Matrix<T>, c0: nat, row: nat, k: nat)
    requires Everywhere(f) && Shape(m, c0 + |m|) && row < k <= |m| && Solvable(f, m, c0, row)
    ensures var t := Run(f, m, c0, row);
      && UnitColumns(f, t, c0, row)
      && (t[row][c0 + row] == f.zero ==> !Solvable(f, m, c0, k))
      && (t[row][c0 + row] != f.zero ==>
            Solvable(f, m, c0, row + 1) && Run(f, m, c0, row + 1) == Step(f, t, c0 + row, row))
  {
    RunMakesUnitColumns(f, m, c0, row);
    PivotDecides(f, m, c0, row, k);
    RunStep(f, m, c0, row + 1);
  }

  lemma PivotDecides<T(!new)>(f: Field<T>, m: Matrix<T>, c0: nat, row: nat, k: nat)
    requires Shape(m, c0 + |m|) && row < k <= |m| && Solvable(f, m, c0, row)
    ensures Run(f, m, c0, row)[row][c0 + row] == f.zero ==> !Solvable(f, m, c0, k)
    ensures Run(f, m, c0, row)[row][c0 + row] != f.zero ==> Solvable(f, m, c0, row + 1)
  {
    if Run(f, m, c0, row)[row][c0 + row] == f.zero {
      assert !PivotNonZero(f, m, c0, row);
    } else {
      forall p | 0 <= p < row + 1 ensures PivotNonZero(f, m, c0, p) {
        if p == row {} else {}
      }
    }
  }

  /** Solve one row at a time; stop at a zero pivot. `m` is the matrix that is passed in. */
  method GaussElim<T(==,!new)>(f: Field<T>, rows: nat, leftcols: nat, left: array<T>, right: array<T>, datamissing: nat,
                               ghost m: Matrix<T>)
    returns (ok: bool)
    requires Everywhere(f) && left != right && datamissing <= rows
    requires left.Length == rows * leftcols && right.Length == rows * rows
    requires m == Augmented(left[..], leftcols, right[..], rows)
    modifies left, right
    ensures ok <==> Solvable(f, m, leftcols, datamissing)
    ensures ok ==> Augmented(left[..], leftcols, right[..], rows) == Run(f, m, leftcols, datamissing)
  {
    for row := 0 to datamissing
      invariant Solvable(f, m, leftcols, row)
      invariant Augmented(left[..], leftcols, right[..], rows) == Run(f, m, leftcols, row)
    {
      ok := SolveRow(f, rows, leftcols, left, right, row, datamissing, m);
      if !ok {
        return;
      }
    }
    return true;
  }

  method SolveRow<T(==,!new)>(f: Field<T>, rows: nat, leftcols: nat, left: array<T>, right: array<T>, row: nat,
                              ghost datamissing: nat, ghost m: Matrix<T>)
    returns (ok: bool)
    requires Everywhere(f) && left != right && row < datamissing <= rows && |m| == rows && Shape(m, leftcols + rows)
    requires left.Length == rows * leftcols && right.Length == rows * rows
    requires Solvable(f, m, leftcols, row) && Augmented(left[..], leftcols, right[..], rows) == Run(f, m, leftcols, row)
    modifies left, right
    ensures !ok ==> !Solvable(f, m, leftcols, datamissing)
    ensures ok ==> Solvable(f, m, leftcols, row + 1)
    ensures ok ==> Augmented(left[..], leftcols, right[..], rows) == Run(f, m, leftcols, row + 1)
  {
    RightPart(f, left[..], leftcols, right[..], rows, row);
    RowFits(rows, rows, row);
    NextPivot(f, m, leftcols, row, datamissing);
    var pivotvalue := right[row * rows + row];
    assert pivotvalue == Run(f, m, leftcols, row)[row][leftcols + row];
    ok := pivotvalue != f.zero;
    if ok {
      EliminateColumn(f, rows, leftcols, left, right, row);
    }
  }
}
