/** Small value types and string helpers shared by the three scripts' models. */
module Common {

  /** A value that may be missing: Python's None, pandas' NaN, SQL NULL. */
  datatype Option<+T> = None | Some(value: T)

  /** A value, or the error that stopped its computation. */
  datatype Result<+T, +E> = Ok(value: T) | Err(error: E)

  /** The total length of some strings. */
  function TotalLength(parts: seq<string>): nat
  {
    if parts == [] then 0 else |parts[0]| + TotalLength(parts[1..])
  }

  /** Python's `sep.join(parts)`: the parts in order, one separator between neighbours. */
  function Join(parts: seq<string>, sep: string): (r: string)
    ensures parts == [] ==> r == ""
    ensures |parts| > 0 ==> |r| == TotalLength(parts) + (|parts| - 1) * |sep|
    ensures |parts| > 0 ==> r[..|parts[0]|] == parts[0]
    ensures |parts| > 1 ==> r[|parts[0]|..|parts[0]| + |sep|] == sep
  {
    if |parts| == 0 then ""
    else if |parts| == 1 then parts[0]
    else
      var rest := Join(parts[1..], sep);
      assert (|parts| - 1) * |sep| == |sep| + (|parts| - 2) * |sep|;
      parts[0] + sep + rest
  }

  /** The character of a decimal digit. */
  function DigitChar(d: nat): (c: char)
    requires d < 10
    ensures '0' <= c <= '9'
  {
    (48 + d) as char
  }

  /** Python's `str(n)` (and `f"{n}"`) for a non-negative integer. */
  function NatToString(n: nat): (s: string)
    ensures 1 <= |s|
    ensures |s| == 1 <==> n < 10
    ensures forall k :: 0 <= k < |s| ==> '0' <= s[k] <= '9'
    decreases n
  {
    if n < 10 then [DigitChar(n)] else NatToString(n / 10) + [DigitChar(n % 10)]
  }

  /** Different numbers print differently. */
  lemma {:induction false} NatToStringInjective(a: nat, b: nat)
    requires NatToString(a) == NatToString(b)
    ensures a == b
    decreases a
  {
    if a < 10 || b < 10 {
      assert a < 10 && b < 10;
      assert DigitChar(a) as int == DigitChar(b) as int;
    } else {
      var sa, sb := NatToString(a), NatToString(b);
      assert sa[..|sa| - 1] == NatToString(a / 10);
      assert sb[..|sb| - 1] == NatToString(b / 10);
      NatToStringInjective(a / 10, b / 10);
      assert DigitChar(a % 10) as int == DigitChar(b % 10) as int;
    }
  }

  /** Equal prefixes may be cancelled. */
  lemma PrefixCancel(p: string, x: string, y: string)
    requires p + x == p + y
    ensures x == y
  {
    assert x == (p + x)[|p|..];
    assert y == (p + y)[|p|..];
  }

  /** Python's `s.endswith(suffix)` (case-sensitive). */
  predicate EndsWith(s: string, suffix: string)
  {
    |suffix| <= |s| && s[|s| - |suffix|..] == suffix
  }

  /** `a` can be obtained from `b` by deleting elements: `b`'s relative order is kept. */
  predicate Subsequence<T(==)>(a: seq<T>, b: seq<T>)
    decreases |b|
  {
    if a == [] then true
    else if b == [] then false
    else if a[0] == b[0] then Subsequence(a[1..], b[1..])
    else Subsequence(a, b[1..])
  }

  /** A subsequence may be extended by one element of the longer sequence. */
  lemma {:induction false} SubsequenceAppend<T>(a: seq<T>, b: seq<T>, x: T, keep: bool)
    requires Subsequence(a, b)
    ensures Subsequence(if keep then a + [x] else a, b + [x])
    decreases |b|
  {
    if a == [] {
      if keep {
        assert a + [x] == [x];
        SubsequenceOfTail([x], b, x);
      }
    } else if b == [] {
    } else if a[0] == b[0] {
      SubsequenceAppend(a[1..], b[1..], x, keep);
      assert (b + [x])[1..] == b[1..] + [x];
      if keep {
        assert (a + [x])[1..] == a[1..] + [x];
      }
    } else {
      SubsequenceAppend(a, b[1..], x, keep);
      assert (b + [x])[1..] == b[1..] + [x];
    }
  }

  /** `[x]` is a subsequence of any sequence ending in `x`. */
  lemma {:induction false} SubsequenceOfTail<T>(a: seq<T>, b: seq<T>, x: T)
    requires a == [x]
    ensures Subsequence(a, b + [x])
    decreases |b|
  {
    if b != [] && b[0] != x {
      SubsequenceOfTail(a, b[1..], x);
      assert (b + [x])[1..] == b[1..] + [x];
    } else if b != [] {
      assert Subsequence(a[1..], (b + [x])[1..]);
    } else {
      assert Subsequence(a[1..], [x][1..]);
    }
  }

  /** Dropping the first element of a subsequence keeps it a subsequence. */
  lemma {:induction false} SubsequenceTail<T>(a: seq<T>, b: seq<T>)
    requires a != [] && Subsequence(a, b)
    ensures Subsequence(a[1..], b)
    decreases |b|, 0
  {
    if a[0] == b[0] {
      SubsequenceSkip(a[1..], b[1..], b[0]);
    } else {
      SubsequenceTail(a, b[1..]);
      SubsequenceSkip(a[1..], b[1..], b[0]);
    }
  }

  /** A subsequence of a tail is a subsequence of the whole. */
  lemma {:induction false} SubsequenceSkip<T>(a: seq<T>, tail: seq<T>, x: T)
    requires Subsequence(a, tail)
    ensures Subsequence(a, [x] + tail)
    decreases |tail|, 1
  {
    var b := [x] + tail;
    assert b[1..] == tail;
    if a != [] && a[0] == x {
      if a[0] == tail[0] {
        SubsequenceSkip(a[1..], tail[1..], tail[0]);
        assert [tail[0]] + tail[1..] == tail;
      } else {
        SubsequenceTail(a, tail);
      }
    }
  }

  /**
   * `r` consists of the elements of `xs` at the strictly increasing
   * positions `idx`: each taken position once, in the order of `xs`.
   */
  ghost predicate AtPositions<T>(r: seq<T>, xs: seq<T>, idx: seq<nat>)
  {
    && |idx| == |r|
    && (forall t :: 0 <= t < |idx| ==> idx[t] < |xs| && r[t] == xs[idx[t]])
    && (forall s, t :: 0 <= s < t < |idx| ==> idx[s] < idx[t])
  }

  /** Every position moved one further along. */
  function Shift(idx: seq<nat>): (r: seq<nat>)
    ensures |r| == |idx|
    ensures forall t :: 0 <= t < |idx| ==> r[t] == idx[t] + 1
  {
    seq(|idx|, t requires 0 <= t < |idx| => idx[t] + 1)
  }

  lemma ShiftMembers(idx: seq<nat>)
    ensures 0 !in Shift(idx)
    ensures forall k: nat :: k + 1 in Shift(idx) <==> k in idx
  {
    forall k: nat | k in idx
      ensures k + 1 in Shift(idx)
    {
      var t :| 0 <= t < |idx| && idx[t] == k;
      assert Shift(idx)[t] == k + 1;
    }
  }

  /** Positions in the tail, shifted, plus possibly the head. */
  lemma AtPositionsCons<T>(r: seq<T>, xs: seq<T>, idx: seq<nat>, keepHead: bool)
    requires xs != [] && AtPositions(r, xs[1..], idx)
    ensures AtPositions((if keepHead then [xs[0]] else []) + r, xs,
                        (if keepHead then [0] else []) + Shift(idx))
  {
    var r' := (if keepHead then [xs[0]] else []) + r;
    var idx' := (if keepHead then [0] else []) + Shift(idx);
    var d := if keepHead then 1 else 0;
    forall t | 0 <= t < |idx'|
      ensures idx'[t] < |xs| && r'[t] == xs[idx'[t]]
    {
      if t >= d {
        assert idx'[t] == idx[t - d] + 1 && r'[t] == r[t - d];
        assert xs[1..][idx[t - d]] == xs[idx[t - d] + 1];
      }
    }
    forall s, t | 0 <= s < t < |idx'|
      ensures idx'[s] < idx'[t]
    {
      if s >= d {
        assert idx'[s] == idx[s - d] + 1 && idx'[t] == idx[t - d] + 1;
      }
    }
  }

  /** Positions in the front, plus possibly the last one. */
  lemma AtPositionsSnoc<T>(r: seq<T>, xs: seq<T>, idx: seq<nat>, keepLast: bool)
    requires xs != [] && AtPositions(r, xs[..|xs| - 1], idx)
    ensures AtPositions(r + (if keepLast then [xs[|xs| - 1]] else []), xs,
                        idx + (if keepLast then [|xs| - 1] else []))
  {
    var n := |xs| - 1;
    forall t | 0 <= t < |idx|
      ensures idx[t] < n && r[t] == xs[idx[t]]
    {
      assert xs[..n][idx[t]] == xs[idx[t]];
    }
  }
}
