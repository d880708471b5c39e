/** Gauss-Jordan elimination without pivoting, on rows that hold the left and the right matrix side by side. */
module Elimination {
  import opened Fields
  import opened Vectors

  type Matrix<T> = seq<seq<T>>

  ghost predicate Shape<T>(m: Matrix<T>, width: nat) {
    forall r :: 0 <= r < |m| ==> |m[r]| == width
  }

  /** Row `p` divided by its pivot in column `c`. */
  function Scaled<T(!new)>(f: Field<T>, m: Matrix<T>, c: nat, p: nat): (r: Matrix<T>)
    requires p < |m| && Shape(m, |m[p]|) && c < |m[p]|
    ensures |r| == |m| && Shape(r, |m[p]|)
  {
    m[p := Divided(f, m[p], m[p][c])]
  }

  /** Column `c` cleared from every row but `p`. */
  function Cleared<T(!new)>(f: Field<T>, m: Matrix<T>, c: nat, p: nat): (r: Matrix<T>)
    requires p < |m| && Shape(m, |m[p]|) && c < |m[p]|
    ensures |r| == |m| && Shape(r, |m[p]|)
    ensures r[p] == m[p]
    ensures forall i :: 0 <= i < |m| && i != p ==> r[i] == Reduced(f, m[i], m[p], m[i][c])
  {
    seq(|m|, i requires 0 <= i < |m| => if i == p then m[p] else Reduced(f, m[i], m[p], m[i][c]))
  }

  function Step<T(!new)>(f: Field<T>, m: Matrix<T>, c: nat, p: nat): (r: Matrix<T>)
    requires p < |m| && Shape(m, |m[p]|) && c < |m[p]|
    ensures |r| == |m| && Shape(r, |m[p]|)
  {
    Cleared(f, Scaled(f, m, c, p), c, p)
  }

  /** The matrix after the first `k` steps; the right matrix starts at column `c0`. */
  ghost function Run<T(!new)>(f: Field<T>, m: Matrix<T>, c0: nat, k: nat): (r: Matrix<T>)
    requires Shape(m, c0 + |m|) && k <= |m|
    ensures |r| == |m| && Shape(r, c0 + |m|)
  {
    if k == 0 then m else
      var before := Run(f, m, c0, k - 1);
      assert |before[k - 1]| == c0 + |m|;
      Step(f, before, c0 + k - 1, k - 1)
  }

  ghost predicate PivotNonZero<T(!new)>(f: Field<T>, m: Matrix<T>, c0: nat, p: nat)
    requires Shape(m, c0 + |m|) && p < |m|
  {
    Run(f, m, c0, p)[p][c0 + p] != f.zero
  }

  lemma RunStep<T(!new)>(f: Field<T>, m: Matrix<T>, c0: nat, k: nat)
    requires Shape(m, c0 + |m|) && 0 < k <= |m|
    ensures Run(f, m, c0, k) == Step(f, Run(f, m, c0, k - 1), c0 + k - 1, k - 1)
  {}

  /** The first `k` pivots are usable. */
  ghost predicate Solvable<T(!new)>(f: Field<T>, m: Matrix<T>, c0: nat, k: nat)
    requires Shape(m, c0 + |m|) && k <= |m|
  {
    forall p :: 0 <= p < k ==> PivotNonZero(f, m, c0, p)
  }

  /** The first `n` rows are orthogonal to `u`: with `u` the two sides' unknowns, the equations hold. */
  ghost predicate Annihilates<T(!new)>(f: Field<T>, m: Matrix<T>, n: nat, u: seq<T>)
    requires Shape(m, |u|) && n <= |m|
  {
    forall r :: 0 <= r < n ==> Dot(f, m[r], u) == f.zero
  }

  // One row at a time.

  lemma ScaledRow<T(!new)>(f: Field<T>, a: seq<T>, x: T, u: seq<T>)
    requires Everywhere(f) && |a| == |u| && x != f.zero
    ensures Dot(f, Divided(f, a, x), u) == f.zero <==> Dot(f, a, u) == f.zero
  {
    DotDivided(f, a, x, u);
    Products(f, x, x);
    if Dot(f, a, u) == f.zero { MulCancel(f, Dot(f, Divided(f, a, x), u), x); }
  }

  lemma ReducedRow<T(!new)>(f: Field<T>, a: seq<T>, b: seq<T>, k: T, u: seq<T>)
    requires Everywhere(f) && |a| == |b| == |u| && Dot(f, b, u) == f.zero
    ensures Dot(f, Reduced(f, a, b, k), u) == Dot(f, a, u)
  {
    DotReduced(f, a, b, k, u);
    Products(f, k, k);
    Products(f, Dot(f, a, u), k);
  }

  /** A step inside the first `n` rows changes no solution of those rows. */
  lemma StepKeepsSolutions<T(!new)>(f: Field<T>, m: Matrix<T>, c: nat, p: nat, n: nat, u: seq<T>)
    requires Everywhere(f) && p < n <= |m| && Shape(m, |u|) && c < |u| && m[p][c] != f.zero
    ensures Annihilates(f, Step(f, m, c, p), n, u) <==> Annihilates(f, m, n, u)
  {
    var s, t := Scaled(f, m, c, p), Step(f, m, c, p);
    ScaledRow(f, m[p], m[p][c], u);
    assert t[p] == s[p];
    if Dot(f, m[p], u) == f.zero {
      forall r | 0 <= r < n && r != p ensures Dot(f, t[r], u) == Dot(f, m[r], u) {
        ReducedRow(f, m[r], s[p], s[r][c], u);
      }
      if Annihilates(f, m, n, u) {
        forall r | 0 <= r < n ensures Dot(f, t[r], u) == f.zero {}
      }
      if Annihilates(f, t, n, u) {
        forall r | 0 <= r < n ensures Dot(f, m[r], u) == f.zero {}
      }
    }
  }

  lemma {:induction false} RunKeepsSolutions<T(!new)>(f: Field<T>, m: Matrix<T>, c0: nat, k: nat, n: nat, u: seq<T>)
    requires Everywhere(f) && k <= n <= |m| && Shape(m, c0 + |m|) && |u| == c0 + |m| && Solvable(f, m, c0, k)
    ensures AnnihilatesAfter(f, m, c0, k, n, u) <==> Annihilates(f, m, n, u)
  {
    if k > 0 {
      assert PivotNonZero(f, m, c0, k - 1);
      RunKeepsSolutions(f, m, c0, k - 1, n, u);
      LastStepKeepsSolutions(f, m, c0, k, n, u);
    }
  }

  /** The vector solves the equations that are left after `k` steps. */
  ghost predicate AnnihilatesAfter<T(!new)>(f: Field<T>, m: Matrix<T>, c0: nat, k: nat, n: nat, u: seq<T>)
    requires Shape(m, c0 + |m|) && k <= |m| && n <= |m| && |u| == c0 + |m|
  {
    Annihilates(f, Run(f, m, c0, k), n, u)
  }

  lemma LastStepKeepsSolutions<T(!new)>(f: Field<T>, m: Matrix<T>, c0: nat, k: nat, n: nat, u: seq<T>)
    requires Everywhere(f) && 0 < k <= n <= |m| && Shape(m, c0 + |m|) && |u| == c0 + |m|
    requires PivotNonZero(f, m, c0, k - 1)
    ensures AnnihilatesAfter(f, m, c0, k, n, u) <==> AnnihilatesAfter(f, m, c0, k - 1, n, u)
  {
    RunStep(f, m, c0, k);
    StepKeepsSolutions(f, Run(f, m, c0, k - 1), c0 + k - 1, k - 1, n, u);
  }

  /** The first `k` columns of the right matrix are those of the identity. */
  ghost predicate UnitColumns<T(!new)>(f: Field<T>, m: Matrix<T>, c0: nat, k: nat)
    requires Shape(m, c0 + |m|) && k <= |m|
  {
    forall r, j :: 0 <= r < |m| && c0 <= j < c0 + k ==> m[r][j] == if j == c0 + r then f.one else f.zero
  }

  // One row of a step, in a column where the pivot row is zero.
  lemma StepKeepsEntry<T(!new)>(f: Field<T>, m: Matrix<T>, c: nat, p: nat, r: nat, j: nat)
    requires Everywhere(f) && p < |m| && Shape(m, |m[p]|) && c < |m[p]| && m[p][c] != f.zero
    requires r < |m| && j < |m[p]| && m[p][j] == f.zero
    ensures Step(f, m, c, p)[r][j] == m[r][j]
  {
    DivZero(f, m[p][c]);
    if r != p {
      Products(f, m[r][c], f.zero);
      Products(f, m[r][j], f.zero);
    }
  }

  // One row of a step, in the pivot column.
  lemma StepMakesUnitEntry<T(!new)>(f: Field<T>, m: Matrix<T>, c: nat, p: nat, r: nat)
    requires Everywhere(f) && p < |m| && Shape(m, |m[p]|) && c < |m[p]| && m[p][c] != f.zero
    requires r < |m|
    ensures Step(f, m, c, p)[r][c] == if r == p then f.one else f.zero
  {
    DivZero(f, m[p][c]);
    if r != p {
      Products(f, m[r][c], f.one);
      SumZero(f, m[r][c], m[r][c]);
    }
  }

  lemma StepMakesUnitColumn<T(!new)>(f: Field<T>, m: Matrix<T>, c0: nat, p: nat)
    requires Everywhere(f) && Shape(m, c0 + |m|) && p < |m| && m[p][c0 + p] != f.zero
    requires UnitColumns(f, m, c0, p)
    ensures UnitColumns(f, Step(f, m, c0 + p, p), c0, p + 1)
  {
    var t := Step(f, m, c0 + p, p);
    forall r, j | 0 <= r < |m| && c0 <= j < c0 + p + 1
      ensures t[r][j] == if j == c0 + r then f.one else f.zero
    {
      if j == c0 + p { StepMakesUnitEntry(f, m, j, p, r); } else { StepKeepsEntry(f, m, c0 + p, p, r, j); }
    }
  }

  lemma {:induction false} RunMakesUnitColumns<T(!new)>(f: Field<T>, m: Matrix<T>, c0: nat, k: nat)
    requires Everywhere(f) && Shape(m, c0 + |m|) && k <= |m| && Solvable(f, m, c0, k)
    ensures UnitColumns(f, Run(f, m, c0, k), c0, k)
  {
    if k > 0 {
      var b, p := Run(f, m, c0, k - 1), k - 1;
      RunMakesUnitColumns(f, m, c0, p);
      assert b[p][c0 + p] != f.zero by { assert PivotNonZero(f, m, c0, p); }
      assert Run(f, m, c0, k) == Step(f, b, c0 + p, p) by { RunStep(f, m, c0, k); }
      StepMakesUnitColumn(f, b, c0, p);
    }
  }

  /** A column that is zero in every pivot row is never touched. */
  lemma {:induction false} RunKeepsEntry<T(!new)>(f: Field<T>, m: Matrix<T>, c0: nat, k: nat, r: nat, j: nat)
    requires Everywhere(f) && Shape(m, c0 + |m|) && k <= |m| && r < |m| && j < c0 + |m| && Solvable(f, m, c0, k)
    requires ZeroTo(f, m, k, j)
    ensures Entry(f, m, c0, k, r, j) == m[r][j]
  {
    if k > 0 {
      var p := k - 1;
      RunKeepsEntry(f, m, c0, p, r, j);
      RunKeepsEntry(f, m, c0, p, p, j);
      assert PivotNonZero(f, m, c0, p);
      LastStepKeepsEntry(f, m, c0, k, r, j);
    }
  }

  /** Column `j` is zero in the first `k` rows. */
  ghost predicate ZeroTo<T(!new)>(f: Field<T>, m: Matrix<T>, k: nat, j: nat) {
    k <= |m| && forall p :: 0 <= p < k ==> j < |m[p]| && m[p][j] == f.zero
  }

  /** An entry after the first `k` steps. */
  ghost function Entry<T(!new)>(f: Field<T>, m: Matrix<T>, c0: nat, k: nat, r: nat, j: nat): T
    requires Shape(m, c0 + |m|) && k <= |m| && r < |m| && j < c0 + |m|
  {
    Run(f, m, c0, k)[r][j]
  }

  lemma LastStepKeepsEntry<T(!new)>(f: Field<T>, m: Matrix<T>, c0: nat, k: nat, r: nat, j: nat)
    requires Everywhere(f) && Shape(m, c0 + |m|) && 0 < k <= |m| && r < |m| && j < c0 + |m|
    requires PivotNonZero(f, m, c0, k - 1) && Entry(f, m, c0, k - 1, k - 1, j) == f.zero
    ensures Entry(f, m, c0, k, r, j) == Entry(f, m, c0, k - 1, r, j)
  {
    RunStep(f, m, c0, k);
    StepKeepsEntry(f, Run(f, m, c0, k - 1), c0 + k - 1, k - 1, r, j);
  }

  /** From column `c0 + k` on, the right matrix is that of the identity. */
  ghost predicate IdentityTail<T(!new)>(f: Field<T>, m: Matrix<T>, c0: nat, k: nat)
    requires Shape(m, c0 + |m|)
  {
    forall r, j :: 0 <= r < |m| && c0 + k <= j < c0 + |m| ==> m[r][j] == if j == c0 + r then f.one else f.zero
  }

  lemma RunMakesIdentity<T(!new)>(f: Field<T>, m: Matrix<T>, c0: nat, k: nat)
    requires Everywhere(f) && Shape(m, c0 + |m|) && k <= |m| && Solvable(f, m, c0, k) && IdentityTail(f, m, c0, k)
    ensures UnitColumns(f, Run(f, m, c0, k), c0, |m|)
  {
    var t := Run(f, m, c0, k);
    RunMakesUnitColumns(f, m, c0, k);
    forall r, j | 0 <= r < |m| && c0 <= j < c0 + |m|
      ensures t[r][j] == if j == c0 + r then f.one else f.zero
    {
      if j >= c0 + k {
        assert ZeroTo(f, m, k, j);
        RunKeepsEntry(f, m, c0, k, r, j);
      }
    }
  }

  lemma UnitRow<T(!new)>(f: Field<T>, m: Matrix<T>, c0: nat, v: seq<T>, w: seq<T>, r: nat)
    requires Everywhere(f) && Shape(m, c0 + |m|) && UnitColumns(f, m, c0, |m|)
    requires |v| == c0 && |w| == |m| && r < |m|
    ensures Dot(f, m[r], v + w) == f.add(Dot(f, m[r][..c0], v), w[r])
  {
    var right := m[r][c0..];
    assert m[r] == m[r][..c0] + right;
    DotConcat(f, m[r][..c0], right, v, w);
    forall j | 0 <= j < |w| ensures right[j] == if j == r then f.one else f.zero {
      assert right[j] == m[r][c0 + j];
    }
    DotAt(f, right, w, r);
    Products(f, w[r], w[r]);
  }

  /** What elimination is for: each left row times the known side gives the unknown of that row. */
  lemma RunSolves<T(!new)>(f: Field<T>, m: Matrix<T>, c0: nat, k: nat, v: seq<T>, w: seq<T>)
    requires Everywhere(f) && Shape(m, c0 + |m|) && k <= |m| && Solvable(f, m, c0, k) && IdentityTail(f, m, c0, k)
    requires |v| == c0 && |w| == |m| && Annihilates(f, m, |m|, v + w)
    ensures forall r :: 0 <= r < |m| ==> Dot(f, Run(f, m, c0, k)[r][..c0], v) == w[r]
  {
    var t := Run(f, m, c0, k);
    RunKeepsSolutions(f, m, c0, k, |m|, v + w);
    RunMakesIdentity(f, m, c0, k);
    forall r | 0 <= r < |m| ensures Dot(f, t[r][..c0], v) == w[r] {
      UnitRow(f, t, c0, v, w, r);
      assert Dot(f, t[r], v + w) == f.zero;
      SumZero(f, Dot(f, t[r][..c0], v), w[r]);
    }
  }

  // When elimination goes through.

  /** `u` is zero outside the first `k` columns of the right matrix. */
  ghost predicate Supported<T(!new)>(f: Field<T>, u: seq<T>, c0: nat, k: nat) {
    forall j :: 0 <= j < |u| && !(c0 <= j < c0 + k) ==> u[j] == f.zero
  }

  ghost predicate AllZero<T(!new)>(f: Field<T>, u: seq<T>) {
    forall j :: 0 <= j < |u| ==> u[j] == f.zero
  }

  /** The leading `k` by `k` block of the right matrix takes only the zero vector to zero. */
  ghost predicate NonSingular<T(!new)>(f: Field<T>, m: Matrix<T>, c0: nat, k: nat)
    requires Shape(m, c0 + |m|) && k <= |m|
  {
    forall u: seq<T> :: |u| == c0 + |m| && Supported(f, u, c0, k) && Annihilates(f, m, k, u) ==> AllZero(f, u)
  }

  lemma SolvableIsNonSingular<T(!new)>(f: Field<T>, m: Matrix<T>, c0: nat, k: nat)
    requires Everywhere(f) && Shape(m, c0 + |m|) && k <= |m| && Solvable(f, m, c0, k)
    ensures NonSingular(f, m, c0, k)
  {
    var t := Run(f, m, c0, k);
    RunMakesUnitColumns(f, m, c0, k);
    forall u: seq<T> | |u| == c0 + |m| && Supported(f, u, c0, k) && Annihilates(f, m, k, u)
      ensures AllZero(f, u)
    {
      RunKeepsSolutions(f, m, c0, k, k, u);
      forall j | 0 <= j < |u| ensures u[j] == f.zero {
        if c0 <= j < c0 + k {
          var r := j - c0;
          DotAt(f, t[r], u, j);
          assert Dot(f, t[r], u) == f.zero;
          Products(f, u[j], u[j]);
        }
      }
    }
  }

  // A vector that a zero pivot in row `p` leaves in the kernel of the leading block.
  ghost function KernelVector<T(!new)>(f: Field<T>, t: Matrix<T>, c0: nat, p: nat): (u: seq<T>)
    requires Shape(t, c0 + |t|) && p < |t|
    ensures |u| == c0 + |t| && Supported(f, u, c0, p + 1) && u[c0 + p] == f.one
    ensures forall j :: c0 <= j < c0 + p ==> u[j] == t[j - c0][c0 + p]
  {
    seq(c0 + |t|, j requires 0 <= j < c0 + |t| =>
      if j == c0 + p then f.one else if c0 <= j < c0 + p then t[j - c0][c0 + p] else f.zero)
  }

  lemma KernelVectorVanishes<T(!new)>(f: Field<T>, t: Matrix<T>, c0: nat, p: nat)
    requires Everywhere(f) && Shape(t, c0 + |t|) && p < |t|
    requires UnitColumns(f, t, c0, p) && t[p][c0 + p] == f.zero
    ensures Annihilates(f, t, p + 1, KernelVector(f, t, c0, p))
  {
    var u, c := KernelVector(f, t, c0, p), c0 + p;
    forall r | 0 <= r < p + 1 ensures Dot(f, t[r], u) == f.zero {
      DotSplit(f, t[r], u, c);
      Products(f, t[r][c], f.one);
      if r == p {
        DotVanishes(f, t[r], u[c := f.zero]);
        Products(f, f.zero, f.zero);
      } else {
        DotAt(f, t[r], u[c := f.zero], c0 + r);
        Products(f, u[c0 + r], u[c0 + r]);
        SumZero(f, t[r][c], t[r][c]);
      }
    }
  }

  lemma ZeroPivotIsSingular<T(!new)>(f: Field<T>, m: Matrix<T>, c0: nat, p: nat)
    requires Everywhere(f) && Shape(m, c0 + |m|) && p < |m| && Solvable(f, m, c0, p)
    requires !PivotNonZero(f, m, c0, p)
    ensures !NonSingular(f, m, c0, p + 1)
  {
    var t := Run(f, m, c0, p);
    var u := KernelVector(f, t, c0, p);
    RunMakesUnitColumns(f, m, c0, p);
    KernelVectorVanishes(f, t, c0, p);
    RunKeepsSolutions(f, m, c0, p, p + 1, u);
    assert u[c0 + p] != f.zero;
  }

  /** Elimination without pivoting finishes exactly when every leading block is non-singular. */
  lemma {:induction false} SolvableIff<T(!new)>(f: Field<T>, m: Matrix<T>, c0: nat, k: nat)
    requires Everywhere(f) && Shape(m, c0 + |m|) && k <= |m|
    ensures Solvable(f, m, c0, k) <==> forall n :: 1 <= n <= k ==> NonSingular(f, m, c0, n)
  {
    if k > 0 {
      SolvableIff(f, m, c0, k - 1);
      if Solvable(f, m, c0, k) {
        assert forall p :: 0 <= p < k - 1 ==> PivotNonZero(f, m, c0, p);
        SolvableIsNonSingular(f, m, c0, k);
      } else if Solvable(f, m, c0, k - 1) {
        ZeroPivotIsSingular(f, m, c0, k - 1);
      }
    }
  }
}
