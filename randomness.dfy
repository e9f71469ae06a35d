/**
 * The random engines (`default_random_engine`, `mt19937`, `java.util.Random`) are foreign
 * code; all the benchmarks rely on is the range of what they return. `RandomInt` is an
 * oracle that may return any value of that range.
 */
module Randomness {

  /** Java's `Integer.MAX_VALUE`; `random.nextInt(INT_MAX)` draws from `[0, INT_MAX - 1]`. */
  const INT_MAX: int := 0x7fff_ffff

  /**
   * `uniform_int_distribution<int>(low, high)` as used by `random_int` and `randomNumber`,
   * and `java.util.Random.nextInt(high + 1)` for `low == 0`: some value in `[low, high]`.
   * Both libraries require `low <= high` of their callers.
   */
  method RandomInt(low: int, high: int) returns (r: int)
    requires low <= high
    ensures low <= r <= high
  {
    r :| low <= r <= high;
  }

  /**
   * Fill a fresh vector of `n` values, each drawn by `RandomInt(low, high)`.
   * When `n` is zero no value is drawn, so the range may then be empty
   * (`nbr_of_randoms - 1` is then the wrapped-around maximum, never used).
   */
  method GenerateValues(n: nat, low: int, high: int) returns (values: seq<int>)
    requires n > 0 ==> low <= high
    ensures |values| == n
    ensures forall k :: 0 <= k < n ==> low <= values[k] <= high
  {
    values := [];
    while |values| < n
      invariant |values| <= n
      invariant forall k :: 0 <= k < |values| ==> low <= values[k] <= high
    {
      var v := RandomInt(low, high);
      values := values + [v];
    }
  }
}
