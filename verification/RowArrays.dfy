/** Row operations carried out in place on matrices stored row after row in one array. */
module RowArrays {
  import opened Arithmetic
  import opened Fields
  import opened Vectors
  import opened Elimination

  function Overwrite<T>(s: seq<T>, start: nat, part: seq<T>): (r: seq<T>)
    requires start + |part| <= |s|
    ensures |r| == |s|
  {
    s[..start] + part + s[start + |part|..]
  }

  /** Row `r` of a matrix with `cols` columns. */
  function RowOf<T>(s: seq<T>, rows: nat, cols: nat, r: nat): (a: seq<T>)
    requires |s| == rows * cols && r < rows
    ensures |a| == cols
  {
    RowFits(rows, cols, r);
    s[r * cols..r * cols + cols]
  }

  lemma RowFits(rows: nat, cols: nat, r: nat)
    requires r < rows
    ensures 0 <= r * cols && r * cols + cols <= rows * cols
  {
    MulMono(r + 1, rows, cols);
    MulMono(0, r, cols);
  }

  lemma RowsApart(cols: nat, r: nat, q: nat)
    requires r < q
    ensures r * cols + cols <= q * cols
  {
    MulMono(r + 1, q, cols);
  }

  /** Overwriting part of row `r` from column `c` on changes that row and no other. */
  lemma OverwriteRow<T>(s: seq<T>, rows: nat, cols: nat, r: nat, c: nat, part: seq<T>)
    requires |s| == rows * cols && r < rows && c + |part| <= cols
    ensures 0 <= r * cols && r * cols + cols <= |s|
    ensures RowOf(Overwrite(s, r * cols + c, part), rows, cols, r) == Overwrite(RowOf(s, rows, cols, r), c, part)
    ensures forall q :: 0 <= q < rows && q != r ==>
              RowOf(Overwrite(s, r * cols + c, part), rows, cols, q) == RowOf(s, rows, cols, q)
  {
    RowFits(rows, cols, r);
    forall q | 0 <= q < rows && q != r
      ensures RowOf(Overwrite(s, r * cols + c, part), rows, cols, q) == RowOf(s, rows, cols, q)
    {
      RowFits(rows, cols, q);
      if q < r { RowsApart(cols, q, r); } else { RowsApart(cols, r, q); }
    }
  }

  /** Both matrices side by side, as rows. */
  function Augmented<T>(left: seq<T>, leftcols: nat, right: seq<T>, rows: nat): (m: Matrix<T>)
    requires |left| == rows * leftcols && |right| == rows * rows
    ensures |m| == rows && Shape(m, leftcols + rows)
  {
    seq(rows, r requires 0 <= r < rows => RowOf(left, rows, leftcols, r) + RowOf(right, rows, rows, r))
  }

  /** The first `n` elements of `part` have been written over `s` from `start` on. */
  ghost predicate PartlyWritten<T(!new)>(s: seq<T>, t: seq<T>, start: nat, part: seq<T>, n: nat) {
    && |t| == |s| && n <= |part|
    && forall i :: 0 <= i < |t| ==> t[i] == if start <= i < start + n then part[i - start] else s[i]
  }

  lemma AllWritten<T(!new)>(s: seq<T>, t: seq<T>, start: nat, part: seq<T>)
    requires start + |part| <= |s| && PartlyWritten(s, t, start, part, |part|)
    ensures t == Overwrite(s, start, part)
  {}

  /** Divide a stretch of the array by `x`, skipping zeros. */
  method DivideStretch<T(==,!new)>(f: Field<T>, a: array<T>, start: nat, len: nat, x: T)
    requires Everywhere(f) && x != f.zero && start + len <= a.Length
    modifies a
    ensures var s := old(a[..]); a[..] == Overwrite(s, start, Divided(f, s[start..start + len], x))
  {
    DivZero(f, x);
    ghost var s := a[..];
    ghost var part := Divided(f, s[start..start + len], x);
    for col := 0 to len
      invariant PartlyWritten(s, a[..], start, part, col)
    {
      if a[start + col] != f.zero {
        a[start + col] := f.div(a[start + col], x);
      }
    }
    AllWritten(s, a[..], start, part);
  }

  lemma SkipZero<T(!new)>(f: Field<T>, x: T, y: T, k: T)
    requires Everywhere(f)
    ensures y == f.zero ==> f.add(x, f.mul(y, k)) == x
    ensures k == f.one ==> f.mul(y, k) == y
  {
    Products(f, y, k);
    Products(f, k, k);
    Products(f, x, k);
  }

  /** What is to be written next, from what is in the array now. */
  lemma NextReduced<T(!new)>(f: Field<T>, s: seq<T>, t: seq<T>, dst: nat, src: nat, len: nat, k: T, part: seq<T>,
                             col: nat)
    requires Everywhere(f) && dst + len <= |s| && src + len <= |s| && (dst + len <= src || src + len <= dst)
    requires col < len
    requires part == Reduced(f, s[dst..dst + len], s[src..src + len], k) && PartlyWritten(s, t, dst, part, col)
    ensures part[col] == if t[src + col] == f.zero then t[dst + col]
                         else if k == f.one then f.add(t[dst + col], t[src + col])
                         else f.add(t[dst + col], f.mul(t[src + col], k))
  {
    SkipZero(f, s[dst + col], s[src + col], k);
    assert t[dst + col] == s[dst + col] && t[src + col] == s[src + col];
  }

  lemma WriteNext<T(!new)>(s: seq<T>, t: seq<T>, start: nat, part: seq<T>, col: nat)
    requires start + |part| <= |s| && col < |part| && PartlyWritten(s, t, start, part, col)
    ensures PartlyWritten(s, t[start + col := part[col]], start, part, col + 1)
    ensures t[start + col] == part[col] ==> PartlyWritten(s, t, start, part, col + 1)
  {}

  /** Take a stretch away from another one, skipping zeros. */
  method SubtractStretch<T(==,!new)>(f: Field<T>, a: array<T>, dst: nat, src: nat, len: nat)
    requires Everywhere(f) && dst + len <= a.Length && src + len <= a.Length
    requires dst + len <= src || src + len <= dst
    modifies a
    ensures var s := old(a[..]); a[..] == Overwrite(s, dst, Reduced(f, s[dst..dst + len], s[src..src + len], f.one))
  {
    ghost var s := a[..];
    ghost var part := Reduced(f, s[dst..dst + len], s[src..src + len], f.one);
    for col := 0 to len
      invariant PartlyWritten(s, a[..], dst, part, col)
    {
      NextReduced(f, s, a[..], dst, src, len, f.one, part, col);
      WriteNext(s, a[..], dst, part, col);
      if a[src + col] != f.zero {
        a[dst + col] := f.add(a[dst + col], a[src + col]);
      }
    }
    AllWritten(s, a[..], dst, part);
  }

  /** Take a multiple of a stretch away from another one, skipping zeros. */
  method SubtractScaledStretch<T(==,!new)>(f: Field<T>, a: array<T>, dst: nat, src: nat, len: nat, k: T)
    requires Everywhere(f) && dst + len <= a.Length && src + len <= a.Length
    requires dst + len <= src || src + len <= dst
    modifies a
    ensures var s := old(a[..]); a[..] == Overwrite(s, dst, Reduced(f, s[dst..dst + len], s[src..src + len], k))
  {
    ghost var s := a[..];
    ghost var part := Reduced(f, s[dst..dst + len], s[src..src + len], k);
    for col := 0 to len
      invariant PartlyWritten(s, a[..], dst, part, col)
    {
      NextReduced(f, s, a[..], dst, src, len, k, part, col);
      WriteNext(s, a[..], dst, part, col);
      if a[src + col] != f.zero {
        a[dst + col] := f.add(a[dst + col], f.mul(a[src + col], k));
      }
    }
    AllWritten(s, a[..], dst, part);
  }

  /** The factor one has a loop of its own, without products. */
  method SubtractMultiple<T(==,!new)>(f: Field<T>, a: array<T>, dst: nat, src: nat, len: nat, k: T)
    requires Everywhere(f) && dst + len <= a.Length && src + len <= a.Length
    requires dst + len <= src || src + len <= dst
    modifies a
    ensures var s := old(a[..]); a[..] == Overwrite(s, dst, Reduced(f, s[dst..dst + len], s[src..src + len], k))
  {
    if k == f.one {
      SubtractStretch(f, a, dst, src, len);
    } else {
      SubtractScaledStretch(f, a, dst, src, len, k);
    }
  }
}
