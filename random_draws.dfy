/**
 * The random module, abstracted. Randomness is a tape of raw draws that the
 * caller supplies; each call of `random.randint` or each pick of
 * `random.sample` consumes the next draw. Proving a property for every tape
 * proves it for every outcome the random module could produce.
 */
module Rand {
  import opened Results

  type Tape = nat -> nat

  /** `random.randint(lo, hi)` fed with the raw draw `u`. */
  function RandInt(lo: int, hi: int, u: nat): (r: Result<int>)
    ensures r.Failure? <==> hi < lo
    ensures r.Failure? ==> r.error == EmptyRandRange
    ensures r.Success? ==> lo <= r.value <= hi
  {
    if hi < lo then Failure(EmptyRandRange) else Success(lo + u % (hi - lo + 1))
  }

  /** Nothing is lost by the abstraction: every value of the range comes out of some draw. */
  lemma RandIntReachesEveryValue(lo: int, hi: int, v: int)
    requires lo <= v <= hi
    ensures RandInt(lo, hi, v - lo) == Success(v)
  {
    var n := hi - lo + 1;
    assert 0 <= v - lo < n;
    assert (v - lo) % n == v - lo;
  }
}
