/**
 * The per-axis weights of the grid: a growable array of floats, one per row or
 * column, each starting at 1.0 (`Weights` in grid.py).
 */
module Axis {
  import opened Wrappers
  import opened PyBuiltins

  /**
   * What `resize(amount)` leaves, written as the statements it runs: when the
   * amount is at least the current length it appends `amount` ones, otherwise it
   * runs `del w[-1:amount-1:-1]`. The amount is compared with the length, not with
   * zero, so a positive amount smaller than the length shrinks the array to that
   * amount; the ensures clauses give the four resulting shapes.
   */
  function Resized(w: seq<real>, amount: int): (r: seq<real>)
    ensures amount >= |w| ==> r == w + Ones(amount)
    ensures 0 < amount < |w| ==> r == w[..amount]
    ensures -|w| < amount <= 0 ==> r == w[..|w| + amount]
    ensures amount <= -|w| ==> r == []
  {
    if amount >= |w| then w + Ones(amount) else DelBackward(w, -1, amount - 1)
  }

  /** Resizing never disturbs the weights it keeps. */
  lemma ResizedKeepsPrefix(w: seq<real>, amount: int)
    ensures forall i | 0 <= i < |w| && i < |Resized(w, amount)| :: Resized(w, amount)[i] == w[i]
    ensures forall i | |w| <= i < |Resized(w, amount)| :: Resized(w, amount)[i] == 1.0
  {
  }

  /**
   * The length `configure(rows=n)` produces: `resize(n - len)` gives n, except when
   * len < n < 2*len, where the delta is positive but smaller than the length and
   * the array shrinks to n - len. Either way a positive n leaves at least one row.
   */
  lemma ResizedToCount(w: seq<real>, n: int)
    requires n > 0
    ensures |Resized(w, n - |w|)| == if |w| < n < 2 * |w| then n - |w| else n
    ensures |Resized(w, n - |w|)| >= 1
  {
  }

  /** Growing an axis adds one to its sum for each weight appended. */
  lemma ResizedGrowSum(w: seq<real>, amount: int)
    requires amount >= |w|
    ensures Sum(Resized(w, amount)) == Sum(w) + amount as real
  {
    SumConcat(w, Ones(amount));
    SumOnes(amount);
  }

  class Weights {
    var elems: seq<real>

    /** `Weights(length)`: `length` weights of 1.0. */
    constructor (length: nat)
      ensures elems == Ones(length)
    {
      elems := Ones(length);
    }

    /** `sum()`: positive weights on a non-empty axis give a positive divisor. */
    function Sum(): (r: real)
      reads this
      ensures (forall i | 0 <= i < |elems| :: elems[i] >= 0.0) ==> r >= 0.0
      ensures (forall i | 0 <= i < |elems| :: elems[i] > 0.0) && elems != [] ==> r > 0.0
    {
      SumSign(elems);
      PyBuiltins.Sum(elems)
    }

    /** `resize(amount)`, in place. */
    method Resize(amount: int)
      modifies this
      ensures elems == Resized(old(elems), amount)
    {
      if amount >= |elems| {
        elems := elems + Ones(amount);
      } else {
        elems := DelBackward(elems, -1, amount - 1);
      }
    }

    /** `self[index] = weight`: IndexError, and no change, unless `index` is valid. */
    method Store(index: int, weight: real) returns (err: Option<Error>)
      modifies this
      ensures err == if ValidIndex(index, |old(elems)|) then None else Some(IndexError)
      ensures elems == if ValidIndex(index, |old(elems)|)
                       then old(elems)[Norm(index, |old(elems)|) := weight]
                       else old(elems)
    {
      if ValidIndex(index, |elems|) {
        elems := elems[Norm(index, |elems|) := weight];
        err := None;
      } else {
        err := Some(IndexError);
      }
    }
  }
}
