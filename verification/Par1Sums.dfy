/** Output rows as running sums over the inputs read so far. */
module Par1Sums {
  import opened Fields
  import opened Vectors
  import opened RowArrays
  import opened ReedSolomonMatrix
  import opened MultiplyBuffers

  /** After `k` inputs, entry `i` of an output row is the dot product of the first `k` factors and inputs of column
      `i`. */
  ghost predicate Summed<T(!new)>(g: Field<T>, row: seq<T>, columns: seq<seq<T>>, out: seq<T>, k: nat) {
    && |columns| <= |out| && k <= |row|
    && forall i :: 0 <= i < |columns| ==> |columns[i]| == |row| && out[i] == Dot(g, row[..k], columns[i][..k])
  }

  lemma NoneSummed<T(!new)>(g: Field<T>, row: seq<T>, columns: seq<seq<T>>, out: seq<T>)
    requires |columns| <= |out|
    requires forall i :: 0 <= i < |columns| ==> |columns[i]| == |row| && out[i] == g.zero
    ensures Summed(g, row, columns, out, 0)
  {}

  lemma OneMoreSummed<T(!new)>(g: Field<T>, row: seq<T>, columns: seq<seq<T>>, before: seq<T>, after: seq<T>, k: nat)
    requires Everywhere(g) && k < |row| && |after| == |before| && Summed(g, row, columns, before, k)
    requires forall i :: 0 <= i < |columns| ==> after[i] == g.add(before[i], g.mul(row[k], columns[i][k]))
    ensures Summed(g, row, columns, after, k + 1)
  {
    forall i | 0 <= i < |columns| ensures after[i] == Dot(g, row[..k + 1], columns[i][..k + 1]) {
      var a, d := row[..k + 1], columns[i][..k + 1];
      DotLast(g, a, d);
      assert a[..k] == row[..k] && d[..k] == columns[i][..k];
    }
  }

  lemma AllSummed<T(!new)>(g: Field<T>, row: seq<T>, columns: seq<seq<T>>, out: seq<T>)
    requires Summed(g, row, columns, out, |row|)
    ensures forall i :: 0 <= i < |columns| ==> out[i] == Dot(g, row, columns[i])
  {
    forall i | 0 <= i < |columns| ensures out[i] == Dot(g, row, columns[i]) {
      assert row[..|row|] == row && columns[i][..|row|] == columns[i];
    }
  }

  /** Updating a stretch at the start of row `o` changes that row only. */
  lemma UpdatedRow<T(!new)>(acc: (T, T) -> T, before: seq<T>, after: seq<T>, input: seq<T>, rows: nat, cols: nat,
                            o: nat, len: nat)
    requires |before| == rows * cols && o < rows && len <= cols && 0 <= o * cols
    requires Updated(acc, before, after, input, o * cols, len)
    ensures forall i :: 0 <= i < len ==>
              RowOf(after, rows, cols, o)[i] == acc(RowOf(before, rows, cols, o)[i], input[i])
    ensures forall q :: 0 <= q < rows && q != o ==> RowOf(after, rows, cols, q) == RowOf(before, rows, cols, q)
  {
    RowFits(rows, cols, o);
    forall q | 0 <= q < rows && q != o ensures RowOf(after, rows, cols, q) == RowOf(before, rows, cols, q) {
      RowFits(rows, cols, q);
      if q < o { RowsApart(cols, q, o); } else { RowsApart(cols, o, q); }
    }
  }

  /** Rows before `done` have taken in input `k`, the others not yet. */
  ghost predicate PartlySummed<T(!new)>(g: Field<T>, matrix: seq<seq<T>>, columns: seq<seq<T>>, out: seq<T>, cols: nat,
                                        k: nat, done: nat) {
    && |out| == |matrix| * cols
    && forall o :: 0 <= o < |matrix| ==>
         Summed(g, matrix[o], columns, RowOf(out, |matrix|, cols, o), if o < done then k + 1 else k)
  }

  lemma RowTakesInput<T(!new)>(g: Field<T>, acc: (T, T) -> T, matrix: seq<seq<T>>, columns: seq<seq<T>>, before: seq<T>,
                               after: seq<T>, input: seq<T>, cols: nat, k: nat, o: nat)
    requires Everywhere(g) && o < |matrix| && k < |matrix[o]| && |columns| <= cols && 0 <= o * cols
    requires PartlySummed(g, matrix, columns, before, cols, k, o)
    requires Updated(acc, before, after, input, o * cols, |columns|)
    requires forall x: T, y: T :: acc(x, y) == g.add(x, g.mul(matrix[o][k], y))
    requires forall i :: 0 <= i < |columns| ==> |columns[i]| == |matrix[o]| && input[i] == columns[i][k]
    ensures PartlySummed(g, matrix, columns, after, cols, k, o + 1)
  {
    UpdatedRow(acc, before, after, input, |matrix|, cols, o, |columns|);
    assert Summed(g, matrix[o], columns, RowOf(before, |matrix|, cols, o), k);
    OneMoreSummed(g, matrix[o], columns, RowOf(before, |matrix|, cols, o), RowOf(after, |matrix|, cols, o), k);
  }

  lemma InputTaken<T(!new)>(g: Field<T>, matrix: seq<seq<T>>, columns: seq<seq<T>>, out: seq<T>, cols: nat, k: nat)
    requires PartlySummed(g, matrix, columns, out, cols, k, |matrix|)
    ensures PartlySummed(g, matrix, columns, out, cols, k + 1, 0)
  {}

  lemma NothingSummed<T(!new)>(g: Field<T>, matrix: seq<seq<T>>, columns: seq<seq<T>>, out: seq<T>, cols: nat)
    requires |out| == |matrix| * cols && |columns| <= cols && forall j :: 0 <= j < |out| ==> out[j] == g.zero
    requires forall o, i :: 0 <= o < |matrix| && 0 <= i < |columns| ==> |columns[i]| == |matrix[o]|
    ensures PartlySummed(g, matrix, columns, out, cols, 0, 0)
  {
    forall o | 0 <= o < |matrix| ensures Summed(g, matrix[o], columns, RowOf(out, |matrix|, cols, o), 0) {
      RowFits(|matrix|, cols, o);
      NoneSummed(g, matrix[o], columns, RowOf(out, |matrix|, cols, o));
    }
  }

  lemma EverythingSummed<T(!new)>(g: Field<T>, matrix: seq<seq<T>>, columns: seq<seq<T>>, out: seq<T>, cols: nat,
                                  inputs: nat)
    requires PartlySummed(g, matrix, columns, out, cols, inputs, 0)
    requires forall o :: 0 <= o < |matrix| ==> |matrix[o]| == inputs
    requires forall i :: 0 <= i < |columns| ==> |columns[i]| == inputs
    requires |columns| <= cols
    ensures forall o, i :: 0 <= o < |matrix| && 0 <= i < |columns| ==>
              RowOf(out, |matrix|, cols, o)[i] == Dot(g, matrix[o], columns[i])
  {
    forall o, i | 0 <= o < |matrix| && 0 <= i < |columns|
      ensures RowOf(out, |matrix|, cols, o)[i] == Dot(g, matrix[o], columns[i])
    {
      assert Summed(g, matrix[o], columns, RowOf(out, |matrix|, cols, o), inputs);
      AllSummed(g, matrix[o], columns, RowOf(out, |matrix|, cols, o));
    }
  }
}
