/** A buffer that holds a stretch of a file, and the copies that move it. */
module ScanBuffers {
  import opened RowArrays

  /** The first `tail` elements are the file from `base` on. */
  ghost predicate HoldsFile<T>(buf: seq<T>, file: seq<T>, tail: nat, base: nat) {
    tail <= |buf| && base + tail <= |file| && buf[..tail] == file[base..base + tail]
  }

  lemma HoldsNothing<T>(buf: seq<T>, file: seq<T>, base: nat)
    requires base <= |file|
    ensures HoldsFile(buf, file, 0, base)
  {}

  lemma HoldsMore<T>(before: seq<T>, after: seq<T>, file: seq<T>, tail: nat, base: nat, want: nat)
    requires HoldsFile(before, file, tail, base) && tail + want <= |before| && base + tail + want <= |file|
    requires after == Overwrite(before, tail, file[base + tail..base + tail + want])
    ensures HoldsFile(after, file, tail + want, base)
  {
    assert after[..tail + want] == before[..tail] + file[base + tail..base + tail + want];
  }

  lemma HoldsLater<T>(before: seq<T>, after: seq<T>, file: seq<T>, tail: nat, base: nat, from: nat)
    requires HoldsFile(before, file, tail, base) && from <= tail && |after| == |before|
    requires after[..tail - from] == before[from..tail]
    ensures HoldsFile(after, file, tail - from, base + from)
  {
    assert before[from..tail] == before[..tail][from..];
  }

  lemma HeldSlice<T>(buf: seq<T>, file: seq<T>, tail: nat, base: nat, at: nat, n: nat)
    requires HoldsFile(buf, file, tail, base) && at + n <= tail
    ensures buf[at..at + n] == file[base + at..base + at + n]
  {
    forall i | at <= i < at + n ensures buf[i] == file[base + i] { HeldAt(buf, file, tail, base, i); }
  }

  lemma HeldAt<T>(buf: seq<T>, file: seq<T>, tail: nat, base: nat, at: nat)
    requires HoldsFile(buf, file, tail, base) && at < tail
    ensures buf[at] == file[base + at]
  {
    assert buf[at] == buf[..tail][at];
  }

  /** Copy a stretch to the start of the buffer. */
  method MoveToStart<T>(a: array<T>, from: nat, n: nat)
    requires from + n <= a.Length
    modifies a
    ensures var s := old(a[..]); a[..] == Overwrite(s, 0, s[from..from + n])
  {
    for i := 0 to n
      invariant forall j :: 0 <= j < a.Length ==> a[j] == old(a[if j < i then from + j else j])
    {
      a[i] := a[from + i];
    }
  }

  /** Set a stretch to one value. */
  method Blank<T>(a: array<T>, at: nat, n: nat, v: T)
    requires at + n <= a.Length
    modifies a
    ensures var s := old(a[..]); a[..] == Overwrite(s, at, seq(n, _ => v))
  {
    for i := 0 to n
      invariant forall j :: 0 <= j < a.Length ==> a[j] == if at <= j < at + i then v else old(a[j])
    {
      a[at + i] := v;
    }
  }

  lemma HoldsUnderBlank<T>(before: seq<T>, after: seq<T>, file: seq<T>, tail: nat, base: nat, at: nat, part: seq<T>)
    requires HoldsFile(before, file, tail, base) && tail <= at && at + |part| <= |before|
    requires after == Overwrite(before, at, part)
    ensures HoldsFile(after, file, tail, base)
  {
    assert after[..tail] == before[..tail];
  }

  /** Drop what is before `from` and move `n` elements to the start; they include all that is held. */
  method Shift<T>(a: array<T>, from: nat, n: nat, ghost file: seq<T>, ghost tail: nat, ghost base: nat)
    requires from + n <= a.Length && from <= tail <= from + n && HoldsFile(a[..], file, tail, base)
    modifies a
    ensures HoldsFile(a[..], file, tail - from, base + from)
    ensures a[..n] == old(a[from..from + n])
  {
    ghost var before := a[..];
    MoveToStart(a, from, n);
    HoldsLater(before, a[..], file, tail, base, from);
  }
}
