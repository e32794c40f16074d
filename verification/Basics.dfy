/** Vocabulary shared by every component: machine integers, sums over
    sequences, Go map reads and the byte-wise string order. */
module Basics {

  datatype Option<+T> = None | Some(value: T)

  // math.MaxInt and the modulus of uint64.
  const MAX_INT: int := 0x7fff_ffff_ffff_ffff
  const TWO_64: int := 0x1_0000_0000_0000_0000

  // Conversion of an int to uint64, and the result of uint64 arithmetic.
  function Wrap64(x: int): int {
    x % TWO_64
  }

  function Min(x: int, y: int): int {
    if x <= y then x else y
  }

  function Max(x: int, y: int): int {
    if x >= y then x else y
  }

  // A Go map read: a missing key yields the zero value.
  function Get<K>(m: map<K, int>, k: K): int {
    if k in m then m[k] else 0
  }

  function Sum(s: seq<int>): int {
    if s == [] then 0 else Sum(s[..|s| - 1]) + s[|s| - 1]
  }

  function Weighted(w: seq<int>, s: seq<int>): int
    requires |w| == |s|
  {
    if s == [] then 0
    else Weighted(w[..|w| - 1], s[..|s| - 1]) + s[|s| - 1] * w[|w| - 1]
  }

  lemma {:induction false} SumUpdate(s: seq<int>, i: nat, v: int)
    requires i < |s|
    ensures Sum(s[i := v]) == Sum(s) - s[i] + v
  {
    var n := |s| - 1;
    if i < n {
      SumUpdate(s[..n], i, v);
      assert s[i := v][..n] == s[..n][i := v];
    } else {
      assert s[i := v][..n] == s[..n];
    }
  }

  lemma {:induction false} WeightedUpdate(w: seq<int>, s: seq<int>, i: nat, v: int)
    requires i < |s| == |w|
    ensures Weighted(w, s[i := v]) == Weighted(w, s) + (v - s[i]) * w[i]
  {
    var n := |s| - 1;
    if i < n {
      WeightedUpdate(w[..n], s[..n], i, v);
      assert s[i := v][..n] == s[..n][i := v];
    } else {
      assert s[i := v][..n] == s[..n];
      Distribute(s[n], v - s[n], w[n]);
    }
  }

  lemma SumMonotone(s: seq<int>, t: seq<int>)
    requires |s| == |t|
    requires forall i :: 0 <= i < |s| ==> s[i] <= t[i]
    ensures Sum(s) <= Sum(t)
  {
    if s != [] { SumMonotone(s[..|s| - 1], t[..|t| - 1]); }
  }

  lemma SumAppend(s: seq<int>, t: seq<int>)
    ensures Sum(s + t) == Sum(s) + Sum(t)
  {
    if t == [] {
      assert s + t == s;
    } else {
      SumAppend(s, t[..|t| - 1]);
      assert (s + t)[..|s + t| - 1] == s + t[..|t| - 1];
    }
  }

  lemma SumNonNegative(s: seq<int>)
    requires forall i :: 0 <= i < |s| ==> 0 <= s[i]
    ensures 0 <= Sum(s)
    ensures forall i :: 0 <= i < |s| ==> s[i] <= Sum(s)
  {
    if s != [] { SumNonNegative(s[..|s| - 1]); }
  }

  lemma SumZero(s: seq<int>)
    requires forall i :: 0 <= i < |s| ==> s[i] == 0
    ensures Sum(s) == 0
  {
    if s != [] { SumZero(s[..|s| - 1]); }
  }

  lemma WeightedZero(w: seq<int>, s: seq<int>)
    requires |w| == |s|
    requires forall i :: 0 <= i < |s| ==> s[i] == 0
    ensures Weighted(w, s) == 0
  {
    if s != [] { WeightedZero(w[..|w| - 1], s[..|s| - 1]); }
  }

  lemma {:induction false} SumAdd(s: seq<int>, t: seq<int>, u: seq<int>)
    requires |s| == |t| == |u|
    requires forall i :: 0 <= i < |s| ==> u[i] == s[i] + t[i]
    ensures Sum(u) == Sum(s) + Sum(t)
  {
    if s != [] { SumAdd(s[..|s| - 1], t[..|t| - 1], u[..|u| - 1]); }
  }

  lemma Distribute(x: int, y: int, k: int)
    ensures (x + y) * k == x * k + y * k
  {
  }

  lemma {:induction false} WeightedAdd(w: seq<int>, s: seq<int>, t: seq<int>, u: seq<int>)
    requires |w| == |s| == |t| == |u|
    requires forall i :: 0 <= i < |s| ==> u[i] == s[i] + t[i]
    ensures Weighted(w, u) == Weighted(w, s) + Weighted(w, t)
  {
    if s != [] {
      var n := |s| - 1;
      WeightedAdd(w[..n], s[..n], t[..n], u[..n]);
      Distribute(s[n], t[n], w[n]);
    }
  }

  // Go's < on strings.
  predicate StringLess(a: string, b: string) {
    b != [] && (a == [] || a[0] < b[0] || (a[0] == b[0] && StringLess(a[1..], b[1..])))
  }

  lemma {:induction false} StringLessTrichotomy(a: string, b: string)
    ensures a != b ==> StringLess(a, b) != StringLess(b, a)
    ensures !StringLess(a, a)
  {
    if a != [] {
      StringLessTrichotomy(a[1..], a[1..]);
      if b != [] {
        StringLessTrichotomy(a[1..], b[1..]);
        assert a == [a[0]] + a[1..] && b == [b[0]] + b[1..];
      }
    }
  }

  lemma {:induction false} StringLessTransitive(a: string, b: string, c: string)
    requires StringLess(a, b) && StringLess(b, c)
    ensures StringLess(a, c)
  {
    if a != [] && a[0] == b[0] == c[0] {
      StringLessTransitive(a[1..], b[1..], c[1..]);
    }
  }
}
