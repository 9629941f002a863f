/**
 * Repeated application of a step function, and the sequence of states a
 * loop passes through when each of its passes applies the step a fixed
 * number of times.
 */
module Iteration {

  /** f applied k times to x. */
  function Repeat<T>(f: T -> T, x: T, k: nat): T
    decreases k
  {
    if k == 0 then x else Repeat(f, f(x), k - 1)
  }

  /** Applying f a + b times is applying it a times and then b times more. */
  lemma {:induction false} RepeatAdd<T>(f: T -> T, x: T, a: nat, b: nat)
    ensures Repeat(f, x, a + b) == Repeat(f, Repeat(f, x, a), b)
    decreases a
  {
    if a > 0 {
      RepeatAdd(f, f(x), a - 1, b);
    }
  }

  /** One more application is f applied to the result. */
  lemma {:induction false} RepeatSucc<T>(f: T -> T, x: T, k: nat)
    ensures Repeat(f, x, k + 1) == f(Repeat(f, x, k))
  {
    RepeatAdd(f, x, k, 1);
    assert Repeat(f, f(Repeat(f, x, k)), 0) == f(Repeat(f, x, k));
  }

  /** The states after 0, 1, ..., n - 1 passes, each pass applying f stride times. */
  function Trajectory<T>(f: T -> T, x: T, stride: nat, n: nat): (r: seq<T>)
    ensures |r| == n
  {
    if n == 0 then [] else Trajectory(f, x, stride, n - 1) + [Repeat(f, x, stride * (n - 1))]
  }

  /** Entry t of a trajectory of n states is x after stride * t applications, for every t < n. */
  lemma {:induction false} TrajectoryAt<T>(f: T -> T, x: T, stride: nat, n: nat, t: nat)
    requires t < n
    ensures Trajectory(f, x, stride, n)[t] == Repeat(f, x, stride * t)
  {
    if t < n - 1 {
      TrajectoryAt(f, x, stride, n - 1, t);
    }
  }

  /** A longer trajectory starts with the shorter one. */
  lemma {:induction false} TrajectoryPrefix<T>(f: T -> T, x: T, stride: nat, m: nat, n: nat)
    requires m <= n
    ensures Trajectory(f, x, stride, n)[..m] == Trajectory(f, x, stride, m)
    decreases n
  {
    if m < n {
      TrajectoryPrefix(f, x, stride, m, n - 1);
      assert Trajectory(f, x, stride, n)[..n - 1] == Trajectory(f, x, stride, n - 1);
    }
  }
}
