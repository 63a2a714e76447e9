/**
 * The pieces of Python's built-in semantics that the grid code relies on:
 * the exceptions it can raise, indexing with negative indices, the two kinds
 * of slice it takes, `sum` over floats (as exact reals) and `int()` on a float.
 */
module PyBuiltins {

  /** The exceptions raised by the grid code. */
  datatype Error = ValueError | IndexError | ZeroDivisionError | TypeError | KeyError

  /** `s[i]` succeeds on a sequence of length `n` exactly when `-n <= i < n`. */
  predicate ValidIndex(i: int, n: nat) {
    -(n as int) <= i < n
  }

  /** The position that a valid index denotes: a negative index counts from the end. */
  function Norm(i: int, n: nat): (j: nat)
    requires ValidIndex(i, n)
    ensures j < n
    ensures 0 <= i ==> j == i
    ensures i < 0 ==> j == n + i
  {
    if i < 0 then i + n else i
  }

  /** Where the slice `s[0:hi]` stops on a sequence of length `n`: a negative end
      counts from the back, and an end outside the sequence is clamped to it. */
  function SliceEnd(hi: int, n: nat): (e: nat)
    ensures e <= n
  {
    if hi < 0 then (if hi + n < 0 then 0 else hi + n)
    else if hi > n then n
    else hi
  }

  /** `s[0:hi]`. */
  function Prefix<T>(s: seq<T>, hi: int): (r: seq<T>)
    ensures r <= s
    ensures ValidIndex(hi, |s|) ==> r == s[..Norm(hi, |s|)]
  {
    s[..SliceEnd(hi, |s|)]
  }

  /** A bound of a slice with step -1 on a sequence of length `n`: a negative bound
      counts from the back, and the result is clamped into [-1, n-1]. */
  function BackwardBound(i: int, n: nat): (b: int)
    ensures -1 <= b < n
  {
    if i < 0 then (if i + n < 0 then -1 else i + n)
    else if i >= n then n - 1
    else i
  }

  /** `del s[start:stop:-1]`: removes every position p with stop' < p <= start',
      where start' and stop' are the clamped bounds. */
  function DelBackward<T>(s: seq<T>, start: int, stop: int): (r: seq<T>)
    ensures var a, b := BackwardBound(start, |s|), BackwardBound(stop, |s|);
            |r| == if a <= b then |s| else |s| - (a - b)
  {
    var a := BackwardBound(start, |s|);
    var b := BackwardBound(stop, |s|);
    if a <= b then s else s[..b + 1] + s[a + 1..]
  }

  /** `itertools.repeat(1.0, n)` collected into a sequence. */
  function Ones(n: nat): (r: seq<real>)
    ensures |r| == n
    ensures forall i | 0 <= i < n :: r[i] == 1.0
  {
    seq(n, _ => 1.0)
  }

  /** The built-in `sum`, left to right, over exact reals. */
  function Sum(s: seq<real>): real
  {
    if s == [] then 0.0 else Sum(s[..|s| - 1]) + s[|s| - 1]
  }

  lemma {:induction false} SumConcat(a: seq<real>, b: seq<real>)
    ensures Sum(a + b) == Sum(a) + Sum(b)
  {
    if b == [] {
      assert a + b == a;
    } else {
      assert (a + b)[..|a + b| - 1] == a + b[..|b| - 1];
      SumConcat(a, b[..|b| - 1]);
    }
  }

  /** Extending a prefix by one element adds that element to its sum. */
  lemma SumPrefixStep(s: seq<real>, k: nat)
    requires k < |s|
    ensures Sum(s[..k + 1]) == Sum(s[..k]) + s[k]
  {
    assert s[..k + 1][..k] == s[..k];
  }

  /** Every element multiplied by u. */
  function Scaled(u: real, s: seq<real>): (r: seq<real>)
    ensures |r| == |s|
    ensures forall i | 0 <= i < |s| :: r[i] == u * s[i]
  {
    seq(|s|, i requires 0 <= i < |s| => u * s[i])
  }

  /** A sequence that is another one multiplied elementwise by u sums to u times its sum. */
  lemma {:induction false} SumPointwise(e: seq<real>, s: seq<real>, u: real)
    requires |e| == |s|
    requires forall i | 0 <= i < |s| :: e[i] == u * s[i]
    ensures Sum(e) == u * Sum(s)
  {
    if s != [] {
      var n := |s| - 1;
      var e', s' := e[..n], s[..n];
      assert forall i | 0 <= i < n :: e'[i] == e[i] && s'[i] == s[i];
      SumPointwise(e', s', u);
      assert Sum(e) == Sum(e') + e[n];
      assert Sum(s) == Sum(s') + s[n];
      assert u * Sum(s') + u * s[n] == u * (Sum(s') + s[n]);
    }
  }

  /** Scaling every element scales the sum. */
  lemma SumScaled(u: real, s: seq<real>)
    ensures Sum(Scaled(u, s)) == u * Sum(s)
  {
    SumPointwise(Scaled(u, s), s, u);
  }

  lemma {:induction false} SumOnes(n: nat)
    ensures Sum(Ones(n)) == n as real
  {
    if n > 0 {
      assert Ones(n)[..n - 1] == Ones(n - 1);
      SumOnes(n - 1);
    }
  }

  /** A non-empty sequence of positive weights has a positive sum, and
      non-negative weights have a non-negative sum. */
  lemma {:induction false} SumSign(s: seq<real>)
    ensures (forall i | 0 <= i < |s| :: s[i] >= 0.0) ==> Sum(s) >= 0.0
    ensures (forall i | 0 <= i < |s| :: s[i] > 0.0) && s != [] ==> Sum(s) > 0.0
  {
    if s != [] {
      var t := s[..|s| - 1];
      assert forall i | 0 <= i < |t| :: t[i] == s[i];
      SumSign(t);
    }
  }

  /** `int(x)` for a float: the integer part, rounding toward zero. */
  function Truncate(x: real): (r: int)
    ensures 0.0 <= x ==> r as real <= x < r as real + 1.0
    ensures x < 0.0 ==> r as real - 1.0 < x <= r as real
  {
    if x >= 0.0 then x.Floor else -((-x).Floor)
  }

  /** The rounding used when rects are written is not the floor: the two differ on
      every negative non-integer, for example -0.5. */
  lemma TruncateIsNotFloor()
    ensures Truncate(-0.5) == 0 && (-0.5).Floor == -1
  {
  }
}
