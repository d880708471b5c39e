/** The matrix that `Compute` sets up, and what solving it gives. */
module ReedSolomonMatrix {
  import opened Fields
  import opened Vectors
  import opened Elimination

  /** A recovery block: whether it is available, and its exponent. */
  datatype OutputRow = OutputRow(present: bool, exponent: nat)

  /** The indexes at which `flags` has the wanted value, in ascending order. */
  function Positions(flags: seq<bool>, wanted: bool): (s: seq<nat>)
    ensures forall k :: 0 <= k < |s| ==> s[k] < |flags| && flags[s[k]] == wanted
  {
    if flags == [] then []
    else
      var n := |flags| - 1;
      Positions(flags[..n], wanted) + if flags[n] == wanted then [n] else []
  }

  lemma {:induction false} PositionsPartition(flags: seq<bool>)
    ensures |Positions(flags, true)| + |Positions(flags, false)| == |flags|
  {
    if flags != [] { PositionsPartition(flags[..|flags| - 1]); }
  }

  /** The exponents of the available (or the missing) recovery blocks, in order. */
  function Exponents(rows: seq<OutputRow>, present: bool): (s: seq<nat>) {
    if rows == [] then []
    else
      var n := |rows| - 1;
      Exponents(rows[..n], present) + if rows[n].present == present then [rows[n].exponent] else []
  }

  function Gather<T>(d: seq<T>, at: seq<nat>): (s: seq<T>)
    requires forall k :: 0 <= k < |at| ==> at[k] < |d|
    ensures |s| == |at|
  {
    seq(|at|, k requires 0 <= k < |at| => d[at[k]])
  }

  /** Recovery block `e` of the data `d`: the sum of base^e times each block. */
  ghost function Parity<T(!new)>(g: Field<T>, base: nat -> T, d: seq<T>, e: nat): T {
    Dot(g, TruePowers(g, base, |d|, e), d)
  }

  ghost function TruePowers<T(!new)>(g: Field<T>, base: nat -> T, n: nat, e: nat): (s: seq<T>)
    ensures |s| == n
  {
    seq(n, i requires 0 <= i < n => g.Power(base(i), e))
  }

  /** The powers as the matrix holds them, computed by the table operator. */
  function Powers<T(!new)>(g: Field<T>, base: nat -> T, at: seq<nat>, e: nat): (s: seq<T>)
    ensures |s| == |at|
  {
    seq(|at|, k requires 0 <= k < |at| => g.pow(base(at[k]), e))
  }

  function UnitVector<T(!new)>(g: Field<T>, n: nat, k: int): (s: seq<T>)
    ensures |s| == n
  {
    seq(n, i requires 0 <= i < n => if i == k then g.one else g.zero)
  }

  /** Which inputs and outputs take part: indexes of present and missing data, and one exponent for each row. */
  datatype Layout = Layout(present: seq<nat>, missing: seq<nat>, exponents: seq<nat>) {
    predicate Fits() {
      |missing| <= |exponents|
    }

    function LeftRow<T(!new)>(g: Field<T>, base: nat -> T, r: nat): (s: seq<T>)
      requires r < |exponents|
      ensures |s| == |present| + |missing|
    {
      Powers(g, base, present, exponents[r]) + UnitVector(g, |missing|, r)
    }

    function RightRow<T(!new)>(g: Field<T>, base: nat -> T, r: nat): (s: seq<T>)
      requires Fits() && r < |exponents|
      ensures |s| == |exponents|
    {
      Powers(g, base, missing, exponents[r]) + UnitVector(g, |exponents| - |missing|, r - |missing|)
    }

    /** Left and right matrix side by side. */
    function Initial<T(!new)>(g: Field<T>, base: nat -> T): (m: Matrix<T>)
      requires Fits()
      ensures |m| == |exponents| && Shape(m, |present| + |missing| + |exponents|)
    {
      seq(|exponents|, r requires 0 <= r < |exponents| => LeftRow(g, base, r) + RightRow(g, base, r))
    }

    /** The left matrix that `Process` uses. */
    ghost function Solved<T(!new)>(g: Field<T>, base: nat -> T): (m: Matrix<T>)
      requires Fits()
      ensures |m| == |exponents| && Shape(m, |present| + |missing|)
    {
      var t := Run(g, Initial(g, base), |present| + |missing|, |missing|);
      seq(|exponents|, r requires 0 <= r < |exponents| => t[r][..|present| + |missing|])
    }

    ghost predicate Solves<T(!new)>(g: Field<T>, base: nat -> T)
      requires Fits()
    {
      Solvable(g, Initial(g, base), |present| + |missing|, |missing|)
    }

    ghost predicate ExponentsWithin<T(!new)>(g: Field<T>) {
      forall r :: 0 <= r < |exponents| ==> exponents[r] <= g.limit
    }

    /** The rows that are read: present data, then one recovery value for each missing block. */
    ghost function Known<T(!new)>(g: Field<T>, base: nat -> T, d: seq<T>): (v: seq<T>)
      requires Fits() && Indexes(|d|)
      ensures |v| == |present| + |missing|
    {
      Gather(d, present) + seq(|missing|, r requires 0 <= r < |missing| => Parity(g, base, d, exponents[r]))
    }

    /** The rows that are wanted: missing data, then the missing recovery values. */
    ghost function Unknown<T(!new)>(g: Field<T>, base: nat -> T, d: seq<T>): (w: seq<T>)
      requires Fits() && Indexes(|d|)
      ensures |w| == |exponents|
    {
      Gather(d, missing) + ParityTail(g, base, this, d)
    }

    predicate Indexes(n: nat) {
      && (forall k :: 0 <= k < |present| ==> present[k] < n)
      && (forall k :: 0 <= k < |missing| ==> missing[k] < n)
    }
  }

  lemma SolvedRow<T(!new)>(g: Field<T>, base: nat -> T, l: Layout, t: Matrix<T>, r: nat)
    requires l.Fits() && r < |l.exponents|
    requires t == Run(g, l.Initial(g, base), |l.present| + |l.missing|, |l.missing|)
    ensures l.Solved(g, base)[r] == t[r][..|l.present| + |l.missing|]
  {}

  ghost function ParityTail<T(!new)>(g: Field<T>, base: nat -> T, l: Layout, d: seq<T>): (s: seq<T>)
    requires l.Fits()
    ensures |s| == |l.exponents| - |l.missing|
  {
    seq(|l.exponents| - |l.missing|, r requires 0 <= r < |l.exponents| - |l.missing| =>
      Parity(g, base, d, l.exponents[|l.missing| + r]))
  }

  /** A sum over all blocks is the sum over the present ones plus the sum over the missing ones. */
  lemma {:induction false} DotPartition<T(!new)>(g: Field<T>, flags: seq<bool>, a: seq<T>, d: seq<T>)
    requires Everywhere(g) && |a| == |d| == |flags|
    ensures Dot(g, a, d) ==
            g.add(GatheredDot(g, a, d, Positions(flags, true)), GatheredDot(g, a, d, Positions(flags, false)))
  {
    if flags == [] {
      Products(g, g.zero, g.zero);
    } else {
      var n := |flags| - 1;
      var p, q := Positions(flags[..n], true), Positions(flags[..n], false);
      DotPartition(g, flags[..n], a[..n], d[..n]);
      GatheredPrefix(g, a, d, n, p);
      GatheredPrefix(g, a, d, n, q);
      DotLast(g, a, d);
      RegroupSum(g, GatheredDot(g, a, d, p), GatheredDot(g, a, d, q), g.mul(a[n], d[n]));
      if flags[n] {
        assert Positions(flags, true) == p + [n] && Positions(flags, false) == q;
        GatherLast(g, a, d, p);
      } else {
        assert Positions(flags, true) == p && Positions(flags, false) == q + [n];
        GatherLast(g, a, d, q);
      }
    }
  }

  lemma RegroupSum<T(!new)>(g: Field<T>, x: T, y: T, z: T)
    requires Everywhere(g)
    ensures g.add(g.add(x, y), z) == g.add(g.add(x, z), y) && g.add(g.add(x, y), z) == g.add(x, g.add(y, z))
  {
    assert g.Law(x, y, z);
    assert g.Law(y, z, z);
    assert g.Law(x, z, y);
  }

  lemma GatheredPrefix<T(!new)>(g: Field<T>, a: seq<T>, d: seq<T>, n: nat, at: seq<nat>)
    requires |a| == |d| && n <= |d| && forall k :: 0 <= k < |at| ==> at[k] < n
    ensures GatheredDot(g, a[..n], d[..n], at) == GatheredDot(g, a, d, at)
  {
    GatherPrefix(a, n, at);
    GatherPrefix(d, n, at);
  }

  function GatheredDot<T(!new)>(g: Field<T>, a: seq<T>, d: seq<T>, at: seq<nat>): T
    requires |a| == |d| && forall k :: 0 <= k < |at| ==> at[k] < |d|
  {
    Dot(g, Gather(a, at), Gather(d, at))
  }

  lemma DotSnoc<T(!new)>(g: Field<T>, a: seq<T>, d: seq<T>, x: T, y: T)
    requires Everywhere(g) && |a| == |d|
    ensures Dot(g, a + [x], d + [y]) == g.add(Dot(g, a, d), g.mul(x, y))
  {
    DotConcat(g, a, [x], d, [y]);
    DotOne(g, x, y);
  }

  lemma DotLast<T(!new)>(g: Field<T>, a: seq<T>, d: seq<T>)
    requires Everywhere(g) && |a| == |d| > 0
    ensures var n := |a| - 1; Dot(g, a, d) == g.add(Dot(g, a[..n], d[..n]), g.mul(a[n], d[n]))
  {
    var n := |a| - 1;
    DotSnoc(g, a[..n], d[..n], a[n], d[n]);
    assert a[..n] + [a[n]] == a;
    assert d[..n] + [d[n]] == d;
  }

  lemma GatherLast<T(!new)>(g: Field<T>, a: seq<T>, d: seq<T>, at: seq<nat>)
    requires Everywhere(g) && |a| == |d| > 0 && forall k :: 0 <= k < |at| ==> at[k] < |d|
    ensures var n := |a| - 1; GatheredDot(g, a, d, at + [n]) == g.add(GatheredDot(g, a, d, at), g.mul(a[n], d[n]))
  {
    var n := |a| - 1;
    var x, y := Gather(a, at + [n]), Gather(d, at + [n]);
    assert x[..|at|] == Gather(a, at) && y[..|at|] == Gather(d, at);
    DotLast(g, x, y);
  }

  lemma DotOne<T(!new)>(g: Field<T>, x: T, y: T)
    requires Everywhere(g)
    ensures Dot(g, [x], [y]) == g.mul(x, y)
  {
    assert [x][1..] == [] && [y][1..] == [];
    Products(g, g.mul(x, y), g.zero);
  }

  lemma GatherPrefix<T>(d: seq<T>, n: nat, at: seq<nat>)
    requires n <= |d| && forall k :: 0 <= k < |at| ==> at[k] < n
    ensures Gather(d[..n], at) == Gather(d, at)
  {}

  lemma UnitDot<T(!new)>(g: Field<T>, n: nat, k: int, v: seq<T>)
    requires Everywhere(g) && |v| == n
    ensures Dot(g, UnitVector(g, n, k), v) == if 0 <= k < n then v[k] else g.zero
  {
    if 0 <= k < n {
      DotAt(g, UnitVector(g, n, k), v, k);
      Products(g, v[k], v[k]);
    } else {
      DotVanishes(g, UnitVector(g, n, k), v);
    }
  }

  lemma PowersAreTrue<T(!new)>(g: Field<T>, base: nat -> T, n: nat, at: seq<nat>, e: nat)
    requires Everywhere(g) && e <= g.limit && forall k :: 0 <= k < |at| ==> at[k] < n
    ensures Powers(g, base, at, e) == Gather(TruePowers(g, base, n, e), at)
  {
    forall k | 0 <= k < |at| ensures g.pow(base(at[k]), e) == g.Power(base(at[k]), e) {
      assert g.PowLaw(base(at[k]), e);
    }
  }

  ghost predicate Describes(l: Layout, flags: seq<bool>) {
    l.Fits() && l.present == Positions(flags, true) && l.missing == Positions(flags, false)
  }

  lemma LeftSide<T(!new)>(g: Field<T>, base: nat -> T, flags: seq<bool>, l: Layout, d: seq<T>, r: nat)
    requires Everywhere(g) && Describes(l, flags) && |d| == |flags| && l.ExponentsWithin(g) && r < |l.exponents|
    ensures var e := l.exponents[r];
            Dot(g, l.LeftRow(g, base, r), l.Known(g, base, d)) ==
            g.add(GatheredDot(g, TruePowers(g, base, |d|, e), d, l.present),
                  if r < |l.missing| then Parity(g, base, d, e) else g.zero)
  {
    var e := l.exponents[r];
    var v := l.Known(g, base, d);
    PowersAreTrue(g, base, |d|, l.present, e);
    assert v == v[..|l.present|] + v[|l.present|..];
    DotConcat(g, Powers(g, base, l.present, e), UnitVector(g, |l.missing|, r), v[..|l.present|], v[|l.present|..]);
    UnitDot(g, |l.missing|, r, v[|l.present|..]);
    assert v[..|l.present|] == Gather(d, l.present);
  }

  lemma RightSide<T(!new)>(g: Field<T>, base: nat -> T, flags: seq<bool>, l: Layout, d: seq<T>, r: nat)
    requires Everywhere(g) && Describes(l, flags) && |d| == |flags| && l.ExponentsWithin(g) && r < |l.exponents|
    ensures var e := l.exponents[r];
            Dot(g, l.RightRow(g, base, r), l.Unknown(g, base, d)) ==
            g.add(GatheredDot(g, TruePowers(g, base, |d|, e), d, l.missing),
                  if r < |l.missing| then g.zero else Parity(g, base, d, e))
  {
    PowersAreTrue(g, base, |d|, l.missing, l.exponents[r]);
    RightSplit(g, base, l, d, r);
    TailDot(g, base, l, d, r);
  }

  /** The equation for the missing data, and the one for the parity. */
  lemma RightSplit<T(!new)>(g: Field<T>, base: nat -> T, l: Layout, d: seq<T>, r: nat)
    requires Everywhere(g) && l.Fits() && l.Indexes(|d|) && r < |l.exponents|
    ensures Dot(g, l.RightRow(g, base, r), l.Unknown(g, base, d)) ==
            g.add(Dot(g, Powers(g, base, l.missing, l.exponents[r]), Gather(d, l.missing)),
                  Dot(g, UnitVector(g, |l.exponents| - |l.missing|, r - |l.missing|), ParityTail(g, base, l, d)))
  {
    DotConcat(g, Powers(g, base, l.missing, l.exponents[r]),
              UnitVector(g, |l.exponents| - |l.missing|, r - |l.missing|),
              Gather(d, l.missing), ParityTail(g, base, l, d));
  }

  lemma TailDot<T(!new)>(g: Field<T>, base: nat -> T, l: Layout, d: seq<T>, r: nat)
    requires Everywhere(g) && l.Fits() && r < |l.exponents|
    ensures Dot(g, UnitVector(g, |l.exponents| - |l.missing|, r - |l.missing|), ParityTail(g, base, l, d)) ==
            if r < |l.missing| then g.zero else Parity(g, base, d, l.exponents[r])
  {
    UnitDot(g, |l.exponents| - |l.missing|, r - |l.missing|, ParityTail(g, base, l, d));
  }

  /** The equations that `Compute` writes down hold for every data vector. */
  lemma InitialAnnihilates<T(!new)>(g: Field<T>, base: nat -> T, flags: seq<bool>, l: Layout, d: seq<T>)
    requires Everywhere(g) && Describes(l, flags) && |d| == |flags| && l.ExponentsWithin(g)
    ensures Annihilates(g, l.Initial(g, base), |l.exponents|, l.Known(g, base, d) + l.Unknown(g, base, d))
  {
    var m, v, w := l.Initial(g, base), l.Known(g, base, d), l.Unknown(g, base, d);
    forall r | 0 <= r < |m| ensures Dot(g, m[r], v + w) == g.zero {
      var e := l.exponents[r];
      var powers := TruePowers(g, base, |d|, e);
      var x, y, p := GatheredDot(g, powers, d, l.present), GatheredDot(g, powers, d, l.missing), Parity(g, base, d, e);
      DotConcat(g, l.LeftRow(g, base, r), l.RightRow(g, base, r), v, w);
      LeftSide(g, base, flags, l, d, r);
      RightSide(g, base, flags, l, d, r);
      DotPartition(g, flags, powers, d);
      Products(g, x, x);
      Products(g, y, y);
      assert g.add(x, y) == p;
      RegroupSum(g, x, p, y);
      RegroupSum(g, x, y, p);
      SumZero(g, p, p);
      assert g.Law(x, p, y);
    }
  }

  lemma InitialTail<T(!new)>(g: Field<T>, base: nat -> T, l: Layout)
    requires l.Fits()
    ensures IdentityTail(g, l.Initial(g, base), |l.present| + |l.missing|, |l.missing|)
  {}

  /** If elimination goes through, each row of the solved matrix turns the blocks that are read into the
      block that is wanted: missing data first, then the missing recovery blocks. */
  lemma SolvedReconstructs<T(!new)>(g: Field<T>, base: nat -> T, flags: seq<bool>, l: Layout, d: seq<T>)
    requires Everywhere(g) && Describes(l, flags) && |d| == |flags| && l.ExponentsWithin(g) && l.Solves(g, base)
    ensures forall r :: 0 <= r < |l.exponents| ==>
              Dot(g, l.Solved(g, base)[r], l.Known(g, base, d)) ==
              if r < |l.missing| then d[l.missing[r]] else Parity(g, base, d, l.exponents[r])
  {
    var c0, v, w := |l.present| + |l.missing|, l.Known(g, base, d), l.Unknown(g, base, d);
    InitialAnnihilates(g, base, flags, l, d);
    InitialTail(g, base, l);
    RunSolves(g, l.Initial(g, base), c0, |l.missing|, v, w);
    forall r | 0 <= r < |l.exponents|
      ensures Dot(g, l.Solved(g, base)[r], v)
           == if r < |l.missing| then d[l.missing[r]] else Parity(g, base, d, l.exponents[r])
    {
      assert l.Solved(g, base)[r] == Run(g, l.Initial(g, base), c0, |l.missing|)[r][..c0];
      UnknownAt(g, base, l, d, r);
    }
  }

  lemma UnknownAt<T(!new)>(g: Field<T>, base: nat -> T, l: Layout, d: seq<T>, r: nat)
    requires l.Fits() && l.Indexes(|d|) && r < |l.exponents|
    ensures l.Unknown(g, base, d)[r] == if r < |l.missing| then d[l.missing[r]] else Parity(g, base, d, l.exponents[r])
  {
    if r >= |l.missing| {
      assert ParityTail(g, base, l, d)[r - |l.missing|] == Parity(g, base, d, l.exponents[r]);
    }
  }

  /** The leading block of powers, `n` bases by `n` exponents, takes only the zero vector to zero. */
  ghost predicate BlockNonSingular<T(!new)>(g: Field<T>, base: nat -> T, l: Layout, n: nat)
    requires l.Fits() && n <= |l.missing|
  {
    NonSingular(g, l.Initial(g, base), |l.present| + |l.missing|, n)
  }

  /** `Compute` can solve the system exactly when every leading block of powers is non-singular. */
  lemma SolvesIff<T(!new)>(g: Field<T>, base: nat -> T, l: Layout)
    requires Everywhere(g) && l.Fits()
    ensures l.Solves(g, base) <==> forall n :: 1 <= n <= |l.missing| ==> BlockNonSingular(g, base, l, n)
  {
    var m, c0 := l.Initial(g, base), |l.present| + |l.missing|;
    SolvableIff(g, m, c0, |l.missing|);
    if l.Solves(g, base) {
      forall n | 1 <= n <= |l.missing| ensures BlockNonSingular(g, base, l, n) {}
    }
    if forall n :: 1 <= n <= |l.missing| ==> BlockNonSingular(g, base, l, n) {
      forall n | 1 <= n <= |l.missing| ensures NonSingular(g, m, c0, n) {
        assert BlockNonSingular(g, base, l, n);
      }
    }
  }
}
