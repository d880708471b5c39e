/** Rows over a field, and the two row operations of Gauss-Jordan elimination. */
module Vectors {
  import opened Fields

  /** A field in which every value of the type is an element. */
  ghost predicate Everywhere<T(!new)>(f: Field<T>) {
    f.Lawful() && forall x: T :: f.member(x)
  }

  function Dot<T(!new)>(f: Field<T>, a: seq<T>, u: seq<T>): T
    requires |a| == |u|
  {
    if a == [] then f.zero else f.add(f.mul(a[0], u[0]), Dot(f, a[1..], u[1..]))
  }

  function Divided<T(!new)>(f: Field<T>, a: seq<T>, x: T): (r: seq<T>)
    ensures |r| == |a| && forall i :: 0 <= i < |a| ==> r[i] == f.div(a[i], x)
  {
    seq(|a|, i requires 0 <= i < |a| => f.div(a[i], x))
  }

  /** `a` with `k` times `b` taken away; in characteristic two that is adding it. */
  function Reduced<T(!new)>(f: Field<T>, a: seq<T>, b: seq<T>, k: T): (r: seq<T>)
    requires |a| == |b|
    ensures |r| == |a| && forall i :: 0 <= i < |a| ==> r[i] == f.add(a[i], f.mul(b[i], k))
  {
    seq(|a|, i requires 0 <= i < |a| => f.add(a[i], f.mul(b[i], k)))
  }

  // Consequences of the field laws.

  lemma Products<T(!new)>(f: Field<T>, a: T, b: T)
    requires Everywhere(f)
    ensures f.mul(f.zero, a) == f.zero && f.mul(a, f.zero) == f.zero
    ensures f.mul(f.one, a) == a && f.mul(a, f.one) == a
    ensures f.add(f.zero, a) == a && f.add(a, f.zero) == a
    ensures f.mul(a, b) == f.mul(b, a)
  {
    assert f.Law(a, f.zero, a);
    assert f.Law(a, f.one, a);
    assert f.Law(a, b, a);
  }

  lemma SumZero<T(!new)>(f: Field<T>, a: T, b: T)
    requires Everywhere(f)
    ensures f.add(a, b) == f.zero <==> a == b
  {
    assert f.Law(a, b, b);
    assert f.Law(b, b, b);
    assert f.Law(a, b, f.zero);
    Products(f, b, b);
  }

  lemma MulCancel<T(!new)>(f: Field<T>, a: T, x: T)
    requires Everywhere(f) && x != f.zero && f.mul(a, x) == f.zero
    ensures a == f.zero
  {
    var y := f.div(f.one, x);
    assert f.Law(f.one, x, x);
    assert f.Law(x, y, y);
    assert f.Law(a, x, y);
    Products(f, a, a);
    Products(f, y, y);
  }

  lemma DivZero<T(!new)>(f: Field<T>, x: T)
    requires Everywhere(f) && x != f.zero
    ensures f.div(f.zero, x) == f.zero && f.div(x, x) == f.one
  {
    assert f.Law(f.zero, x, x);
    MulCancel(f, f.div(f.zero, x), x);
    var d := f.div(x, x);
    assert f.Law(x, x, x);
    assert f.Law(d, f.one, x);
    Products(f, x, x);
    SumZero(f, f.mul(d, x), f.mul(f.one, x));
    MulCancel(f, f.add(d, f.one), x);
    SumZero(f, d, f.one);
  }

  lemma DivOne<T(!new)>(f: Field<T>, a: T)
    requires Everywhere(f)
    ensures f.div(a, f.one) == a
  {
    assert f.Law(a, f.one, a);
    Products(f, f.div(a, f.one), a);
  }

  // Dot products under the row operations.

  lemma {:induction false} DotDivided<T(!new)>(f: Field<T>, a: seq<T>, x: T, u: seq<T>)
    requires Everywhere(f) && |a| == |u| && x != f.zero
    ensures f.mul(Dot(f, Divided(f, a, x), u), x) == Dot(f, a, u)
  {
    if a == [] {
      Products(f, x, x);
    } else {
      var d := Divided(f, a, x);
      assert d[1..] == Divided(f, a[1..], x);
      DotDivided(f, a[1..], x, u[1..]);
      var rest := Dot(f, d[1..], u[1..]);
      assert f.Law(a[0], x, x);
      assert f.Law(f.mul(d[0], u[0]), rest, x);
      assert f.Law(d[0], u[0], x);
      assert f.Law(u[0], x, x);
      assert f.Law(d[0], x, u[0]);
    }
  }

  lemma {:induction false} DotReduced<T(!new)>(f: Field<T>, a: seq<T>, b: seq<T>, k: T, u: seq<T>)
    requires Everywhere(f) && |a| == |b| == |u|
    ensures Dot(f, Reduced(f, a, b, k), u) == f.add(Dot(f, a, u), f.mul(Dot(f, b, u), k))
  {
    if a == [] {
      Products(f, k, k);
      Products(f, f.zero, k);
    } else {
      var r := Reduced(f, a, b, k);
      assert r[1..] == Reduced(f, a[1..], b[1..], k);
      DotReduced(f, a[1..], b[1..], k, u[1..]);
      var da, db := Dot(f, a[1..], u[1..]), Dot(f, b[1..], u[1..]);
      assert f.Law(a[0], f.mul(b[0], k), u[0]);
      assert f.Law(b[0], k, u[0]);
      assert f.Law(k, u[0], k);
      assert f.Law(b[0], u[0], k);
      assert f.Law(f.mul(b[0], u[0]), db, k);
      SumOfFour(f, f.mul(a[0], u[0]), f.mul(f.mul(b[0], u[0]), k), da, f.mul(db, k));
    }
  }

  lemma SumOfFour<T(!new)>(f: Field<T>, a: T, b: T, c: T, d: T)
    requires Everywhere(f)
    ensures f.add(f.add(a, b), f.add(c, d)) == f.add(f.add(a, c), f.add(b, d))
  {
    assert f.Law(a, b, f.add(c, d));
    assert f.Law(b, c, d);
    assert f.Law(c, b, d);
    assert f.Law(a, c, f.add(b, d));
  }

  lemma {:induction false} DotConcat<T(!new)>(f: Field<T>, a: seq<T>, b: seq<T>, u: seq<T>, v: seq<T>)
    requires Everywhere(f) && |a| == |u| && |b| == |v|
    ensures Dot(f, a + b, u + v) == f.add(Dot(f, a, u), Dot(f, b, v))
  {
    if a == [] {
      assert a + b == b && u + v == v;
      Products(f, Dot(f, b, v), f.zero);
    } else {
      assert (a + b)[1..] == a[1..] + b && (u + v)[1..] == u[1..] + v;
      DotConcat(f, a[1..], b, u[1..], v);
      assert f.Law(f.mul(a[0], u[0]), Dot(f, a[1..], u[1..]), Dot(f, b, v));
    }
  }

  /** Only the positions where both rows are non-zero matter. */
  lemma {:induction false} DotVanishes<T(!new)>(f: Field<T>, a: seq<T>, u: seq<T>)
    requires Everywhere(f) && |a| == |u|
    requires forall j :: 0 <= j < |a| ==> a[j] == f.zero || u[j] == f.zero
    ensures Dot(f, a, u) == f.zero
  {
    if a != [] {
      DotVanishes(f, a[1..], u[1..]);
      Products(f, a[0], f.zero);
      Products(f, u[0], f.zero);
      Products(f, f.zero, f.zero);
    }
  }

  lemma {:induction false} DotSplit<T(!new)>(f: Field<T>, a: seq<T>, u: seq<T>, i: nat)
    requires Everywhere(f) && |a| == |u| && i < |a|
    ensures Dot(f, a, u) == f.add(f.mul(a[i], u[i]), Dot(f, a, u[i := f.zero]))
  {
    var u' := u[i := f.zero];
    if i == 0 {
      assert u'[1..] == u[1..];
      Products(f, a[0], f.zero);
      Products(f, Dot(f, a[1..], u[1..]), f.zero);
    } else {
      assert u'[1..] == u[1..][i - 1 := f.zero];
      DotSplit(f, a[1..], u[1..], i - 1);
      var x, y, rest := f.mul(a[0], u[0]), f.mul(a[i], u[i]), Dot(f, a[1..], u'[1..]);
      assert f.Law(x, y, rest);
      assert f.Law(y, x, rest);
    }
  }

  /** A row that meets the vector in one position only. */
  lemma DotAt<T(!new)>(f: Field<T>, a: seq<T>, u: seq<T>, i: nat)
    requires Everywhere(f) && |a| == |u| && i < |a|
    requires forall j :: 0 <= j < |a| && j != i ==> a[j] == f.zero || u[j] == f.zero
    ensures Dot(f, a, u) == f.mul(a[i], u[i])
  {
    DotSplit(f, a, u, i);
    DotVanishes(f, a, u[i := f.zero]);
    Products(f, f.mul(a[i], u[i]), f.zero);
  }
}
