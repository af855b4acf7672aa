/**
 * Choosing the signs for one image: the requested count is clamped to the
 * number of sign files found, and that many files are drawn without
 * replacement (`random.sample`).
 */
module Selection {
  import opened Results
  import opened Rand

  /** `min(sign_count, len(all_signs))`. */
  function Clamp(signCount: int, available: nat): (n: int)
    ensures n <= signCount && n <= available
    ensures n == signCount || n == available
  {
    if signCount < available then signCount else available
  }

  /** Clamping again against the same pool changes nothing, so carrying the clamped count to the next image is harmless. */
  lemma ClampIsIdempotent(signCount: int, available: nat)
    ensures Clamp(Clamp(signCount, available), available) == Clamp(signCount, available)
  {
  }

  /** The pool left after taking out the element at index `j`. */
  function Without<T>(pool: seq<T>, j: nat): (r: seq<T>)
    requires j < |pool|
    ensures |r| == |pool| - 1
    ensures multiset(r) + multiset{pool[j]} == multiset(pool)
  {
    assert pool == pool[..j] + [pool[j]] + pool[j + 1..];
    pool[..j] + pool[j + 1..]
  }

  /**
   * `random.sample(population, k)` reading its picks from the tape at
   * `cursor`: each pick takes one element out of the remaining pool.
   * `k` outside [0, len(population)] raises.
   */
  function Sample<T>(population: seq<T>, k: int, tape: Tape, cursor: nat): (r: Result<seq<T>>)
    ensures r.Failure? <==> k < 0 || k > |population|
    ensures r.Failure? ==> r.error == BadSampleSize
    ensures r.Success? ==> |r.value| == k && multiset(r.value) <= multiset(population)
    decreases |population|
  {
    if k < 0 || k > |population| then Failure(BadSampleSize)
    else if k == 0 then Success([])
    else
      var j := tape(cursor) % |population|;
      var rest := Sample(Without(population, j), k - 1, tape, cursor + 1);
      Success([population[j]] + rest.value)
  }

  /** The first position of `x` in `s`. */
  ghost function IndexOf<T>(s: seq<T>, x: T): (i: nat)
    requires x in s
    ensures i < |s| && s[i] == x
  {
    if s[0] == x then 0 else 1 + IndexOf(s[1..], x)
  }

  /**
   * The draws that make `Sample` pick `sel` in order: at each step, the
   * position of the next wanted element in what is left of the pool.
   */
  ghost function Picks<T>(population: seq<T>, sel: seq<T>): (d: seq<nat>)
    requires multiset(sel) <= multiset(population)
    ensures |d| == |sel|
    decreases |sel|
  {
    if sel == [] then []
    else
      assert sel[0] in multiset(sel);
      var j := IndexOf(population, sel[0]);
      RestFitsPool(population, sel, j);
      [j] + Picks(Without(population, j), sel[1..])
  }

  /** Taking the first wanted element out of the pool leaves room for the rest. */
  lemma RestFitsPool<T>(population: seq<T>, sel: seq<T>, j: nat)
    requires multiset(sel) <= multiset(population)
    requires sel != [] && j < |population| && population[j] == sel[0]
    ensures multiset(sel[1..]) <= multiset(Without(population, j))
  {
    var pool := Without(population, j);
    assert sel == [sel[0]] + sel[1..];
    assert multiset(sel) == multiset{sel[0]} + multiset(sel[1..]);
    forall x
      ensures multiset(sel[1..])[x] <= multiset(pool)[x]
    {
      assert multiset(sel)[x] <= multiset(population)[x];
    }
  }

  /** A sub-multiset is no longer than the pool it is drawn from. */
  lemma {:induction false} SelectionFitsPool<T>(population: seq<T>, sel: seq<T>)
    requires multiset(sel) <= multiset(population)
    ensures |sel| <= |population|
    decreases |sel|
  {
    if sel != [] {
      assert sel[0] in multiset(sel);
      var j := IndexOf(population, sel[0]);
      RestFitsPool(population, sel, j);
      SelectionFitsPool(Without(population, j), sel[1..]);
    }
  }

  /** The tape holds the draws `d` from position `cursor` on. */
  ghost predicate Holds(tape: Tape, cursor: nat, d: seq<nat>)
    decreases |d|
  {
    d == [] || (tape(cursor) == d[0] && Holds(tape, cursor + 1, d[1..]))
  }

  lemma SmallRemainder(j: nat, n: nat)
    requires j < n
    ensures j % n == j
  {
  }

  /** A first draw that picks `sel[0]`, followed by draws that pick the rest, picks `sel`. */
  lemma SampleFirstPick<T>(population: seq<T>, sel: seq<T>, j: nat, tape: Tape, cursor: nat)
    requires sel != [] && |sel| <= |population|
    requires j < |population| && population[j] == sel[0] && tape(cursor) % |population| == j
    requires Sample(Without(population, j), |sel| - 1, tape, cursor + 1) == Success(sel[1..])
    ensures Sample(population, |sel|, tape, cursor) == Success(sel)
  {
    assert [population[j]] + sel[1..] == sel;
  }

  /**
   * Nothing is lost by modelling `random.sample` as repeated removal: every
   * selection of pool entries without reuse, in every order, is what
   * `Sample` returns on a tape holding the right draws.
   */
  lemma {:induction false} SampleReachesEverySelection<T>(population: seq<T>, sel: seq<T>, tape: Tape, cursor: nat)
    requires multiset(sel) <= multiset(population)
    requires Holds(tape, cursor, Picks(population, sel))
    ensures Sample(population, |sel|, tape, cursor) == Success(sel)
    decreases |sel|
  {
    if sel != [] {
      assert sel[0] in multiset(sel);
      var j := IndexOf(population, sel[0]);
      RestFitsPool(population, sel, j);
      var pool := Without(population, j);
      var d := Picks(population, sel);
      var d' := Picks(pool, sel[1..]);
      assert d == [j] + d';
      assert d[1..] == d';
      SampleReachesEverySelection(pool, sel[1..], tape, cursor + 1);
      SelectionFitsPool(population, sel);
      SmallRemainder(j, |population|);
      SampleFirstPick(population, sel, j, tape, cursor);
    }
  }

  /** A tape that holds `d` from `cursor` on, and 0 everywhere else. */
  ghost function TapeOf(d: seq<nat>, cursor: nat): Tape
  {
    (n: nat) => if cursor <= n < cursor + |d| then d[n - cursor] else 0
  }

  lemma {:induction false} TapeOfHolds(d: seq<nat>, cursor: nat, k: nat)
    requires k <= |d|
    ensures Holds(TapeOf(d, cursor), cursor + k, d[k..])
    decreases |d| - k
  {
    if k < |d| {
      assert TapeOf(d, cursor)(cursor + k) == d[k];
      assert d[k..][1..] == d[k + 1..];
      TapeOfHolds(d, cursor, k + 1);
    }
  }

  /** Every selection without reuse, in every order, is the sample some tape produces. */
  lemma EverySelectionIsSampled<T>(population: seq<T>, sel: seq<T>, cursor: nat)
    requires multiset(sel) <= multiset(population)
    ensures Sample(population, |sel|, TapeOf(Picks(population, sel), cursor), cursor) == Success(sel)
  {
    var d := Picks(population, sel);
    TapeOfHolds(d, cursor, 0);
    assert d[0..] == d;
    SampleReachesEverySelection(population, sel, TapeOf(d, cursor), cursor);
  }

  /** No element occurs twice. */
  ghost predicate Distinct<T>(s: seq<T>)
  {
    forall i, j :: 0 <= i < |s| && 0 <= j < |s| && i != j ==> s[i] != s[j]
  }

  /** Every sampled element is a member of the population. */
  lemma SampleDrawsFromPool<T>(population: seq<T>, k: int, tape: Tape, cursor: nat)
    requires Sample(population, k, tape, cursor).Success?
    ensures forall x :: x in Sample(population, k, tape, cursor).value ==> x in population
  {
    var sel := Sample(population, k, tape, cursor).value;
    forall x | x in sel
      ensures x in population
    {
      assert x in multiset(sel);
    }
  }

  /** Drawn from a list without repeats, the sample has no repeats and only members of the list. */
  lemma SampleIsDistinctMembers<T>(population: seq<T>, k: int, tape: Tape, cursor: nat)
    requires Distinct(population)
    requires 0 <= k <= |population|
    ensures Sample(population, k, tape, cursor).Success?
    ensures var sel := Sample(population, k, tape, cursor).value;
            Distinct(sel) && forall x :: x in sel ==> x in population
  {
    var sel := Sample(population, k, tape, cursor).value;
    SampleDrawsFromPool(population, k, tape, cursor);
    DistinctFromMultiset(population);
    forall i, j | 0 <= i < |sel| && 0 <= j < |sel| && i != j
      ensures sel[i] != sel[j]
    {
      if sel[i] == sel[j] {
        TwiceInMultiset(sel, i, j);
        assert false;
      }
    }
  }

  lemma DistinctFromMultiset<T>(s: seq<T>)
    requires Distinct(s)
    ensures forall x :: multiset(s)[x] <= 1
  {
    if s != [] {
      var t := s[1..];
      assert s == [s[0]] + t;
      assert Distinct(t) by {
        forall i, j | 0 <= i < |t| && 0 <= j < |t| && i != j ensures t[i] != t[j] {
          assert t[i] == s[i + 1] && t[j] == s[j + 1];
        }
      }
      DistinctFromMultiset(t);
    }
  }

  lemma TwiceInMultiset<T>(s: seq<T>, i: nat, j: nat)
    requires i < |s| && j < |s| && i != j && s[i] == s[j]
    ensures multiset(s)[s[i]] >= 2
  {
    var lo := if i < j then i else j;
    var hi := if i < j then j else i;
    assert s == s[..lo] + [s[lo]] + s[lo + 1..hi] + [s[hi]] + s[hi + 1..];
  }
}
