/** Small failure-carrying datatypes shared by every block model. */
module Common {

  /** `None` stands for JavaScript's `null` / `undefined`. */
  datatype Option<+T> = None | Some(value: T)

  /** The outcome of a computation that may throw a JavaScript exception. */
  datatype Result<+T> = Ok(value: T) | Thrown(reason: string) {
    predicate IsFailure() { Thrown? }

    function PropagateFailure<U>(): Result<U>
      requires Thrown?
    {
      Thrown(reason)
    }

    function Extract(): T
      requires Ok?
    {
      value
    }
  }
}

/** JavaScript number arithmetic that differs from Dafny's. */
module JsNumber {

  /**
   * JavaScript's `a % n` on integers for `n > 0`: the quotient truncates
   * toward zero, so the remainder takes the sign of `a`.
   */
  function Remainder(a: int, n: int): (r: int)
    requires n > 0
    ensures -n < r < n
    ensures a >= 0 ==> r >= 0
    ensures a < 0 ==> r <= 0
  {
    if a >= 0 then a % n else -((-a) % n)
  }

  /** `n * d` grows by `n` with each step of `d`. */
  lemma {:induction false} MulAtLeast(n: nat, d: nat)
    requires d >= 1
    ensures n * d >= n
    decreases d
  {
    if d > 1 {
      MulAtLeast(n, d - 1);
      assert n * d == n * (d - 1) + n;
    }
  }

  /** The remainder is the unique `r` in `[0, n)` with `a == n * q + r`. */
  lemma ModUnique(a: int, n: int, q: int, r: int)
    requires n > 0 && 0 <= r < n && a == n * q + r
    ensures a % n == r
  {
    var q' := a / n;
    var r' := a % n;
    assert n * q' + r' == n * q + r;
    if q > q' {
      MulAtLeast(n, q - q');
    } else if q < q' {
      MulAtLeast(n, q' - q);
    }
  }

  /**
   * The wrap-around `(i + n) % n` used by sliders and tab keys: for any `i`
   * from `-n` on it lands in `[0, n)` and agrees with the mathematical
   * residue of `i`, so stepping back from 0 gives `n - 1` and stepping on
   * from `n - 1` gives 0.
   */
  lemma WrapSpec(i: int, n: int)
    requires n > 0 && i >= -n
    ensures 0 <= Remainder(i + n, n) < n && Remainder(i + n, n) == i % n
    ensures i == -1 ==> Remainder(i + n, n) == n - 1
    ensures i == n ==> Remainder(i + n, n) == 0
    ensures 0 <= i < n ==> Remainder(i + n, n) == i
  {
    ModUnique(i + n, n, i / n + 1, i % n);
    if i == -1 {
      ModUnique(i, n, -1, n - 1);
    } else if i == n {
      ModUnique(i, n, 1, 0);
    } else if 0 <= i < n {
      ModUnique(i, n, 0, i);
    }
  }
}
