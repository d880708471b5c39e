/** The Reed Solomon object: which blocks are present, the matrix, and one block's share of an output. */
module ReedSolomon {
  import opened Words
  import opened Fields
  import opened Vectors
  import opened Elimination
  import opened RowArrays
  import opened ReedSolomonMatrix
  import opened GaussElimination
  import opened MultiplyBuffers
  import opened Filling

  /** The base of input block `i`: an 8-bit counter that starts at one and wraps. */
  function ByteBase(i: nat): (b: u8)
    ensures Value(b) == (i + 1) % 256
  {
    ValueOfLowBits(i + 1, 8);
    Bytes256();
    ToBits(i + 1, 8)
  }

  /** These are the bases of the first inputs: their numbers, counted from one, in eight bits. */
  ghost predicate Counted(bases: seq<u8>) {
    forall k :: 0 <= k < |bases| ==> Value(bases[k]) == (k + 1) % 256
  }

  lemma CountedIsBase(bases: seq<u8>, k: nat)
    requires Counted(bases) && k < |bases|
    ensures bases[k] == ByteBase(k)
  {
    ValueInjective(bases[k], ByteBase(k));
  }

  /** Store powers of the listed bases from `start` on. */
  method FillPowers<T(!new)>(g: Field<T>, a: array<T>, start: nat, index: seq<nat>, database: seq<T>, e: nat,
                             ghost base: nat -> T)
    requires start + |index| <= a.Length
    requires forall k :: 0 <= k < |index| ==> index[k] < |database| && database[index[k]] == base(index[k])
    modifies a
    ensures var s := old(a[..]); a[..] == Overwrite(s, start, Powers(g, base, index, e))
  {
    for col := 0 to |index|
      invariant forall i :: 0 <= i < a.Length ==>
                  a[i] == if start <= i < start + col then g.pow(base(index[i - start]), e) else old(a[i])
    {
      a[start + col] := g.pow(database[index[col]], e);
    }
  }

  /** Store a row of the identity, or zeros when `k` is outside it. */
  method FillUnit<T(!new)>(g: Field<T>, a: array<T>, start: nat, n: nat, k: int)
    requires start + n <= a.Length
    modifies a
    ensures var s := old(a[..]); a[..] == Overwrite(s, start, UnitVector(g, n, k))
  {
    for col := 0 to n
      invariant forall i :: 0 <= i < a.Length ==>
                  a[i] == if start <= i < start + col then (if i - start == k then g.one else g.zero) else old(a[i])
    {
      a[start + col] := if col == k then g.one else g.zero;
    }
  }

  lemma OverwriteTwice<T>(s: seq<T>, start: nat, x: seq<T>, y: seq<T>)
    requires start + |x| + |y| <= |s|
    ensures Overwrite(Overwrite(s, start, x), start + |x|, y) == Overwrite(s, start, x + y)
  {}

  /** One row of a matrix: powers, then a row of the identity. */
  method FillRow<T(!new)>(g: Field<T>, a: array<T>, rows: nat, cols: nat, r: nat, index: seq<nat>, database: seq<T>,
                          e: nat, unit: int, ghost base: nat -> T)
    requires |index| <= cols && r < rows && a.Length == rows * cols
    requires forall k :: 0 <= k < |index| ==> index[k] < |database| && database[index[k]] == base(index[k])
    modifies a
    ensures RowReplaced(old(a[..]), a[..], rows, cols, r,
                        Powers(g, base, index, e) + UnitVector(g, cols - |index|, unit))
  {
    ghost var s, powers, tail := a[..], Powers(g, base, index, e), UnitVector(g, cols - |index|, unit);
    RowFits(rows, cols, r);
    var start, rest := r * cols, cols - |index|;
    WholeRow(s, rows, cols, r, powers + tail);
    OverwriteTwice(s, start, powers, tail);
    FillPowers(g, a, start, index, database, e, base);
    FillUnit(g, a, start + |index|, rest, unit);
  }

  /** The first `count` elements are the positions among the first `n` flags. */
  ghost predicate Sorted(s: seq<nat>, count: nat, flags: seq<bool>, n: nat, wanted: bool) {
    count <= |s| && n <= |flags| && s[..count] == Positions(flags[..n], wanted)
  }

  lemma NextPosition(flags: seq<bool>, n: nat, wanted: bool)
    requires n < |flags|
    ensures Positions(flags[..n + 1], wanted) == Positions(flags[..n], wanted) + if flags[n] == wanted then [n] else []
  {
    assert flags[..n + 1][..n] == flags[..n];
  }

  lemma NotWanted(s: seq<nat>, count: nat, flags: seq<bool>, n: nat, wanted: bool)
    requires Sorted(s, count, flags, n, wanted) && n < |flags| && flags[n] != wanted
    ensures Sorted(s, count, flags, n + 1, wanted)
  {
    NextPosition(flags, n, wanted);
  }

  /** Put one more index behind the others. */
  method AddIndex(a: array<nat>, n: nat, ghost flags: seq<bool>, index: nat, ghost wanted: bool) returns (count: nat)
    requires n < a.Length && index < |flags| && flags[index] == wanted && Sorted(a[..], n, flags, index, wanted)
    modifies a
    ensures count == n + 1 && Sorted(a[..], count, flags, index + 1, wanted)
  {
    NextPosition(flags, index, wanted);
    ghost var before := a[..n];
    a[n] := index;
    count := n + 1;
    assert a[..][..count] == before + [index];
  }

  /** Put one index behind the present or the missing ones. */
  method SortOne(presentindex: array<nat>, missingindex: array<nat>, present: seq<bool>, index: nat, np0: nat, nm0: nat)
    returns (np: nat, nm: nat)
    requires presentindex != missingindex && presentindex.Length == missingindex.Length == |present|
    requires index < |present| && np0 + nm0 == index
    requires Sorted(presentindex[..], np0, present, index, true) && Sorted(missingindex[..], nm0, present, index, false)
    modifies presentindex, missingindex
    ensures np + nm == index + 1
    ensures Sorted(presentindex[..], np, present, index + 1, true)
    ensures Sorted(missingindex[..], nm, present, index + 1, false)
  {
    np, nm := np0, nm0;
    if present[index] {
      NotWanted(missingindex[..], nm, present, index, false);
      np := AddIndex(presentindex, np, present, index, true);
    } else {
      NotWanted(presentindex[..], np, present, index, true);
      nm := AddIndex(missingindex, nm, present, index, false);
    }
  }

  /** Sort the input blocks into present and missing ones and give each its base. */
  method SortBlocks<T(!new)>(present: seq<bool>, word: nat -> T, zero: T)
    returns (presentindex: array<nat>, missingindex: array<nat>, database: array<T>, datapresent: nat, datamissing: nat)
    ensures fresh(presentindex) && fresh(missingindex) && fresh(database) && presentindex != missingindex
    ensures presentindex.Length == missingindex.Length == database.Length == |present|
    ensures datapresent + datamissing == |present|
    ensures presentindex[..datapresent] == Positions(present, true)
    ensures missingindex[..datamissing] == Positions(present, false)
    ensures forall i :: 0 <= i < |present| ==> database[i] == word(i + 1)
  {
    presentindex, missingindex := new nat[|present|], new nat[|present|];
    database := new T[|present|](i => zero);
    datapresent, datamissing := 0, 0;
    ghost var base := (i: nat) => word(i + 1);
    for index := 0 to |present|
      invariant datapresent + datamissing == index
      invariant Sorted(presentindex[..], datapresent, present, index, true)
      invariant Sorted(missingindex[..], datamissing, present, index, false)
      invariant Filled(database[..], base, index)
    {
      datapresent, datamissing := SortOne(presentindex, missingindex, present, index, datapresent, datamissing);
      Put(database, index, word(index + 1), base);
    }
    assert present[..|present|] == present;
  }

  ghost predicate LeftFilled<T(!new)>(g: Field<T>, base: nat -> T, l: Layout, s: seq<T>, done: nat) {
    var rows, cols := |l.exponents|, |l.present| + |l.missing|;
    && |s| == rows * cols && done <= rows
    && forall q :: 0 <= q < done ==> RowOf(s, rows, cols, q) == l.LeftRow(g, base, q)
  }

  ghost predicate RightFilled<T(!new)>(g: Field<T>, base: nat -> T, l: Layout, s: seq<T>, done: nat)
    requires l.Fits()
  {
    var rows := |l.exponents|;
    && |s| == rows * rows && done <= rows
    && forall q :: 0 <= q < done ==> RowOf(s, rows, rows, q) == l.RightRow(g, base, q)
  }

  lemma LeftRowFilled<T(!new)>(g: Field<T>, base: nat -> T, l: Layout, s: seq<T>, t: seq<T>, r: nat)
    requires LeftFilled(g, base, l, s, r) && r < |l.exponents|
    requires RowReplaced(s, t, |l.exponents|, |l.present| + |l.missing|, r, l.LeftRow(g, base, r))
    ensures LeftFilled(g, base, l, t, r + 1)
  {}

  lemma RightRowFilled<T(!new)>(g: Field<T>, base: nat -> T, l: Layout, s: seq<T>, t: seq<T>, r: nat)
    requires l.Fits() && RightFilled(g, base, l, s, r) && r < |l.exponents|
    requires RowReplaced(s, t, |l.exponents|, |l.exponents|, r, l.RightRow(g, base, r))
    ensures RightFilled(g, base, l, t, r + 1)
  {}

  lemma BothFilled<T(!new)>(g: Field<T>, base: nat -> T, l: Layout, left: seq<T>, right: seq<T>)
    requires l.Fits() && LeftFilled(g, base, l, left, |l.exponents|) && RightFilled(g, base, l, right, |l.exponents|)
    ensures Augmented(left, |l.present| + |l.missing|, right, |l.exponents|) == l.Initial(g, base)
  {}

  // The exponents in the order in which `Compute` meets them.

  /** Step over rows of the other kind. */
  method NextRow(rows: seq<OutputRow>, from: nat, present: bool) returns (at: nat)
    requires exists k :: from <= k < |rows| && rows[k].present == present
    ensures from <= at < |rows| && rows[at].present == present
    ensures Exponents(rows[..at], present) == Exponents(rows[..from], present)
  {
    at := from;
    while rows[at].present != present
      invariant from <= at < |rows|
      invariant exists k :: at <= k < |rows| && rows[k].present == present
      invariant Exponents(rows[..at], present) == Exponents(rows[..from], present)
      decreases |rows| - at
    {
      assert rows[..at + 1][..at] == rows[..at];
      at := at + 1;
    }
  }

  /** The exponent of the `row`-th recovery block of one kind, and where to go on looking. */
  method NextExponent(rows: seq<OutputRow>, from: nat, present: bool, row: nat) returns (exponent: nat, next: nat)
    requires from <= |rows| && row < |Exponents(rows, present)|
    requires Exponents(rows[..from], present) == Exponents(rows, present)[..row]
    ensures next <= |rows| && exponent == Exponents(rows, present)[row]
    ensures Exponents(rows[..next], present) == Exponents(rows, present)[..row + 1]
  {
    MoreRows(rows, from, present);
    var at := NextRow(rows, from, present);
    exponent, next := rows[at].exponent, at + 1;
    assert rows[..at + 1][..at] == rows[..at];
    ExponentsPrefix(rows, at + 1, present);
  }

  /** Row `row` of both matrices; the right one exists only if there is something to recover. */
  method FillRows<T(!new)>(g: Field<T>, left: array<T>, right: array<T>, present: seq<nat>, missing: seq<nat>,
                           database: seq<T>,
                           outcount: nat, row: nat, exponent: nat, ghost l: Layout, ghost base: nat -> T)
    requires left != right && l.Fits() && l.present == present && l.missing == missing && outcount == |l.exponents|
    requires forall k :: 0 <= k < |present| ==> present[k] < |database| && database[present[k]] == base(present[k])
    requires forall k :: 0 <= k < |missing| ==> missing[k] < |database| && database[missing[k]] == base(missing[k])
    requires row < outcount && exponent == l.exponents[row]
    requires LeftFilled(g, base, l, left[..], row)
    requires |missing| > 0 ==> RightFilled(g, base, l, right[..], row)
    modifies left, right
    ensures LeftFilled(g, base, l, left[..], row + 1)
    ensures |missing| > 0 ==> RightFilled(g, base, l, right[..], row + 1)
  {
    ghost var s, t := left[..], right[..];
    FillRow(g, left, outcount, |present| + |missing|, row, present, database, exponent, row, base);
    LeftRowFilled(g, base, l, s, left[..], row);
    if |missing| > 0 {
      FillRow(g, right, outcount, outcount, row, missing, database, exponent, row - |missing|, base);
      RightRowFilled(g, base, l, t, right[..], row);
    }
  }

  /** One row for each available recovery block that is used, then one for each that is wanted. */
  method FillMatrices<T(!new)>(g: Field<T>, left: array<T>, right: array<T>, present: seq<nat>, missing: seq<nat>,
                               database: seq<T>,
                               rows: seq<OutputRow>, parmissing: nat, ghost l: Layout, ghost base: nat -> T)
    requires left != right && |missing| <= |Exponents(rows, true)| && parmissing == |Exponents(rows, false)|
    requires l == Layout(present, missing, Exponents(rows, true)[..|missing|] + Exponents(rows, false))
    requires forall k :: 0 <= k < |present| ==> present[k] < |database| && database[present[k]] == base(present[k])
    requires forall k :: 0 <= k < |missing| ==> missing[k] < |database| && database[missing[k]] == base(missing[k])
    requires left.Length == |l.exponents| * (|present| + |missing|)
    requires |missing| > 0 ==> right.Length == |l.exponents| * |l.exponents|
    modifies left, right
    ensures LeftFilled(g, base, l, left[..], |l.exponents|)
    ensures |missing| > 0 ==> RightFilled(g, base, l, right[..], |l.exponents|)
  {
    var next: nat := 0;
    var outcount := |missing| + parmissing;
    for row := 0 to |missing|
      invariant next <= |rows| && Exponents(rows[..next], true) == Exponents(rows, true)[..row]
      invariant LeftFilled(g, base, l, left[..], row)
      invariant |missing| > 0 ==> RightFilled(g, base, l, right[..], row)
    {
      var exponent;
      exponent, next := NextExponent(rows, next, true, row);
      FillRows(g, left, right, present, missing, database, outcount, row, exponent, l, base);
    }
    next := 0;
    for row := 0 to parmissing
      invariant next <= |rows| && Exponents(rows[..next], false) == Exponents(rows, false)[..row]
      invariant LeftFilled(g, base, l, left[..], row + |missing|)
      invariant |missing| > 0 ==> RightFilled(g, base, l, right[..], row + |missing|)
    {
      var exponent;
      exponent, next := NextExponent(rows, next, false, row);
      FillRows(g, left, right, present, missing, database, outcount, row + |missing|, exponent, l, base);
    }
  }

  method SolveMatrices<T(==,!new)>(g: Field<T>, left: array<T>, right: array<T>, outcount: nat, incount: nat,
                                   datamissing: nat, ghost l: Layout, ghost base: nat -> T)
    returns (ok: bool)
    requires Everywhere(g) && left != right && l.Fits()
    requires outcount == |l.exponents| && incount == |l.present| + |l.missing| && datamissing == |l.missing|
    requires LeftFilled(g, base, l, left[..], outcount) && RightFilled(g, base, l, right[..], outcount)
    modifies left, right
    ensures ok <==> l.Solves(g, base)
    ensures ok ==> IsSolved(g, base, l, left[..])
  {
    BothFilled(g, base, l, left[..], right[..]);
    SolvesIs(g, base, l, incount, datamissing);
    ok := GaussElim(g, outcount, incount, left, right, datamissing, l.Initial(g, base));
    if ok { SolvedLeft(g, base, l, left[..], right[..]); }
  }

  lemma SolvesIs<T(!new)>(g: Field<T>, base: nat -> T, l: Layout, incount: nat, datamissing: nat)
    requires l.Fits() && incount == |l.present| + |l.missing| && datamissing == |l.missing|
    ensures l.Solves(g, base) <==> Solvable(g, l.Initial(g, base), incount, datamissing)
  {}

  /** Set up both matrices and, when there is data to recover, solve them. */
  method ComputeMatrix<T(==,!new)>(g: Field<T>, present: seq<nat>, missing: seq<nat>, database: seq<T>,
                                   rows: seq<OutputRow>, parmissing: nat, ghost l: Layout, ghost base: nat -> T)
    returns (ok: bool, left: array<T>)
    requires Everywhere(g) && |missing| <= |Exponents(rows, true)| && parmissing == |Exponents(rows, false)|
    requires l == Layout(present, missing, Exponents(rows, true)[..|missing|] + Exponents(rows, false))
    requires forall k :: 0 <= k < |present| ==> present[k] < |database| && database[present[k]] == base(present[k])
    requires forall k :: 0 <= k < |missing| ==> missing[k] < |database| && database[missing[k]] == base(missing[k])
    ensures fresh(left)
    ensures ok <==> l.Solves(g, base)
    ensures ok ==> IsSolved(g, base, l, left[..])
  {
    var outcount, incount := |missing| + parmissing, |present| + |missing|;
    left := new T[outcount * incount](i => g.zero);
    var right := new T[if |missing| > 0 then outcount * outcount else 0](i => g.zero);
    FillMatrices(g, left, right, present, missing, database, rows, parmissing, l, base);
    if |missing| > 0 {
      ok := SolveMatrices(g, left, right, outcount, incount, |missing|, l, base);
    } else {
      UnsolvedLeft(g, base, l, left[..]);
      ok := true;
    }
  }

  class ReedSolomon {
    const g: Field<u8>
    ghost var flags: seq<bool>  // which input blocks are present

    var inputcount: nat
    var datapresent: nat
    var datamissing: nat
    var datapresentindex: array<nat>
    var datamissingindex: array<nat>
    var database: array<u8>

    var outputcount: nat
    var parpresent: nat
    var parmissing: nat
    var outputrows: seq<OutputRow>

    var leftmatrix: array<u8>
    const glmt: LongMultiplyTable

    ghost predicate ValidInput()
      reads this, datapresentindex, datamissingindex, database
    {
      && inputcount == |flags|
      && datapresentindex.Length == datamissingindex.Length == database.Length == inputcount
      && datapresent <= inputcount && datamissing <= inputcount
      && datapresentindex[..datapresent] == Positions(flags, true)
      && datamissingindex[..datamissing] == Positions(flags, false)
      && forall i :: 0 <= i < inputcount ==> database[i] == ByteBase(i)
    }

    ghost predicate ValidOutput()
      reads this
    {
      && outputcount == |outputrows|
      && parpresent == |Exponents(outputrows, true)|
      && parmissing == |Exponents(outputrows, false)|
    }

    ghost predicate Valid()
      reads this, datapresentindex, datamissingindex, database, glmt.tables
    {
      && Everywhere(g) && AddsByXor(g) && glmt.Holds(g)
      && datapresentindex != datamissingindex && ValidInput() && ValidOutput()
    }

    /** Rows and columns of the matrix: the first `datamissing` available exponents, then the missing ones. */
    ghost function Plan(): Layout
      requires datamissing <= |Exponents(outputrows, true)|
      reads this
    {
      Layout(Positions(flags, true), Positions(flags, false),
                    Exponents(outputrows, true)[..datamissing] + Exponents(outputrows, false))
    }

    constructor (g: Field<u8>)
      requires Everywhere(g) && AddsByXor(g)
      ensures Valid() && this.g == g && flags == [] && outputrows == [] && datapresent == datamissing == 0
      ensures fresh(datapresentindex) && fresh(datamissingindex) && fresh(database) && fresh(leftmatrix) && fresh(glmt)
      ensures fresh(glmt.tables)
    {
      this.g := g;
      flags := [];
      inputcount, datapresent, datamissing, outputcount, parpresent, parmissing := 0, 0, 0, 0, 0, 0;
      datapresentindex := new nat[0];
      datamissingindex := new nat[0];
      database := new u8[0](i => Zeros(8));
      outputrows := [];
      leftmatrix := new u8[0](i => Zeros(8));
      glmt := new LongMultiplyTable(g);
    }

    /** Which input blocks are there. */
    method SetInput(present: seq<bool>)
      requires Valid() && datapresent == datamissing == 0
      modifies this`inputcount, this`flags, this`datapresent, this`datamissing
      modifies this`datapresentindex, this`datamissingindex, this`database
      ensures Valid() && flags == present && Counted(database[..])
      ensures fresh(datapresentindex) && fresh(datamissingindex) && fresh(database)
    {
      var p, m, d, np, nm := SortBlocks<u8>(present, (n: nat) => ToBits(n, 8), Zeros(8));
      StoreInput(p, m, d, np, nm, present);
    }

    method StoreInput(p: array<nat>, m: array<nat>, d: array<u8>, np: nat, nm: nat, present: seq<bool>)
      requires Everywhere(g) && AddsByXor(g) && glmt.Holds(g) && ValidOutput()
      requires p != m && p.Length == m.Length == d.Length == |present| && np <= |present| && nm <= |present|
      requires p[..np] == Positions(present, true) && m[..nm] == Positions(present, false)
      requires forall i :: 0 <= i < |present| ==> d[i] == ByteBase(i)
      modifies this`inputcount, this`flags, this`datapresent, this`datamissing
      modifies this`datapresentindex, this`datamissingindex, this`database
      ensures Valid() && flags == present && datapresentindex == p && datamissingindex == m && database == d
    {
      datapresentindex, datamissingindex, database, datapresent, datamissing := p, m, d, np, nm;
      inputcount, flags := |present|, present;
    }

    /** Record a recovery block as available or as wanted. */
    method SetOutput(present: bool, exponent: nat)
      requires Valid()
      modifies this`outputrows, this`outputcount, this`parpresent, this`parmissing
      ensures Valid() && outputrows == old(outputrows) + [OutputRow(present, exponent)]
    {
      outputrows := outputrows + [OutputRow(present, exponent)];
      assert outputrows[..|outputrows| - 1] == old(outputrows);
      outputcount := outputcount + 1;
      if present {
        parpresent := parpresent + 1;
      } else {
        parmissing := parmissing + 1;
      }
    }

    /** Record a range of recovery blocks, both ends included. */
    method SetOutputRange(present: bool, lowexponent: nat, highexponent: nat)
      requires Valid()
      modifies this`outputrows, this`outputcount, this`parpresent, this`parmissing
      ensures Valid()
      ensures outputrows == old(outputrows) +
                seq(if lowexponent <= highexponent then highexponent - lowexponent + 1 else 0,
                    i requires 0 <= i => OutputRow(present, lowexponent + i))
    {
      var exponent := lowexponent;
      while exponent <= highexponent
        invariant Valid()
        invariant lowexponent <= exponent && (exponent <= highexponent + 1 || exponent == lowexponent)
        invariant outputrows == old(outputrows) + seq(exponent - lowexponent,
                                                      i requires 0 <= i => OutputRow(present, lowexponent + i))
      {
        SetOutput(present, exponent);
        exponent := exponent + 1;
      }
    }

    /** Set up the matrix and solve it when there is data to recover. */
    method Compute() returns (ok: bool)
      requires Valid()
      modifies this`leftmatrix
      ensures Valid()
      ensures ok <==> datamissing <= parpresent && datamissing + parmissing > 0 && Plan().Solves(g, ByteBase)
      ensures ok ==> IsSolved(g, ByteBase, Plan(), leftmatrix[..]) && fresh(leftmatrix)
    {
      var outcount := datamissing + parmissing;
      if datamissing > parpresent || outcount == 0 {
        return false;
      }
      var left;
      ok, left := ComputeMatrix(g, datapresentindex[..datapresent], datamissingindex[..datamissing], database[..],
                                outputrows, parmissing, Plan(), ByteBase);
      leftmatrix := left;
    }

    /** The matrix entry for one input and one output. */
    function GetFactor(inputindex: nat, outputindex: nat): u8
      requires leftmatrix.Length == (datamissing + parmissing) * (datapresent + datamissing)
      requires inputindex < datapresent + datamissing && outputindex < datamissing + parmissing
      reads this, leftmatrix
    {
      RowFits(datamissing + parmissing, datapresent + datamissing, outputindex);
      leftmatrix[outputindex * (datapresent + datamissing) + inputindex]
    }

    /** Add one input's share to one output. A zero factor leaves the output alone. */
    method Process(size: nat, inputindex: nat, input: array<u8>, outputindex: nat, output: array<u8>, start: nat)
      requires Everywhere(g) && AddsByXor(g) && glmt.Holds(g)
      requires leftmatrix.Length == (datamissing + parmissing) * (datapresent + datamissing)
      requires inputindex < datapresent + datamissing && outputindex < datamissing + parmissing
      requires input != output && size <= input.Length && start + size <= output.Length
      modifies output
      ensures Updated(Accumulator(g, old(GetFactor(inputindex, outputindex))), old(output[..]), output[..], input[..],
                      start, size)
    {
      var factor := GetFactor(inputindex, outputindex);
      if factor == g.zero {
        ZeroFactor(g, output[..], input[..], start, size);
        return;
      }
      InternalProcess(g, glmt, factor, size, input, output, start);
    }
  }

  lemma ZeroFactor(g: Field<u8>, s: seq<u8>, input: seq<u8>, start: nat, size: nat)
    requires Everywhere(g) && size <= |input| && start + size <= |s|
    ensures Updated(Accumulator(g, g.zero), s, s, input, start, size)
  {
    forall i | start <= i < start + size ensures g.add(s[i], g.mul(g.zero, input[i - start])) == s[i] {
      Products(g, input[i - start], g.zero);
      Products(g, s[i], g.zero);
    }
  }

  ghost predicate IsSolved<T(!new)>(g: Field<T>, base: nat -> T, l: Layout, s: seq<T>)
    requires l.Fits()
  {
    var rows, cols := |l.exponents|, |l.present| + |l.missing|;
    && |s| == rows * cols
    && forall r :: 0 <= r < rows ==> RowOf(s, rows, cols, r) == l.Solved(g, base)[r]
  }

  lemma SolvedLeft<T(!new)>(g: Field<T>, base: nat -> T, l: Layout, left: seq<T>, right: seq<T>)
    requires l.Fits()
    requires var rows, cols := |l.exponents|, |l.present| + |l.missing|;
             && |left| == rows * cols && |right| == rows * rows
             && Augmented(left, cols, right, rows) == Run(g, l.Initial(g, base), cols, |l.missing|)
    ensures IsSolved(g, base, l, left)
  {
    var rows, cols := |l.exponents|, |l.present| + |l.missing|;
    var t := Augmented(left, cols, right, rows);
    forall r | 0 <= r < rows ensures RowOf(left, rows, cols, r) == l.Solved(g, base)[r] {
      assert t[r][..cols] == RowOf(left, rows, cols, r);
      SolvedRow(g, base, l, t, r);
    }
  }

  lemma UnsolvedLeft<T(!new)>(g: Field<T>, base: nat -> T, l: Layout, left: seq<T>)
    requires l.Fits() && |l.missing| == 0 && LeftFilled(g, base, l, left, |l.exponents|)
    ensures IsSolved(g, base, l, left) && l.Solves(g, base)
  {
    var rows, cols := |l.exponents|, |l.present| + |l.missing|;
    forall r | 0 <= r < rows ensures RowOf(left, rows, cols, r) == l.Solved(g, base)[r] {
      assert l.Initial(g, base)[r][..cols] == l.LeftRow(g, base, r);
    }
  }

  lemma {:induction false} ExponentsPrefix(rows: seq<OutputRow>, n: nat, present: bool)
    requires n <= |rows|
    ensures Exponents(rows[..n], present) <= Exponents(rows, present)
  {
    if n < |rows| {
      var m := |rows| - 1;
      assert rows[..m][..n] == rows[..n];
      ExponentsPrefix(rows[..m], n, present);
    } else {
      assert rows[..n] == rows;
    }
  }

  lemma {:induction false} MoreRows(rows: seq<OutputRow>, from: nat, present: bool)
    requires from <= |rows|
    requires |Exponents(rows[..from], present)| < |Exponents(rows, present)|
    ensures exists k :: from <= k < |rows| && rows[k].present == present
  {
    assert rows[..|rows|] == rows;
    if from < |rows| {
      var m := |rows| - 1;
      if rows[m].present != present {
        assert rows[..m][..from] == rows[..from];
        MoreRows(rows[..m], from, present);
        var k :| from <= k < m && rows[..m][k].present == present;
        assert rows[k].present == present;
      }
    }
  }
}
