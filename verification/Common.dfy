// Time, optional values, bytes, sizes of sets and joined sequences, for all the other modules.

/** Instants and durations, counted in nanoseconds since some fixed origin. */
module Clock {
  type Time = nat
  type Duration = nat

  const SECOND: Duration := 1_000_000_000
  const MINUTE: Duration := 60 * SECOND
  const HOUR: Duration := 60 * MINUTE
  const DAY: Duration := 24 * HOUR
}

module Wrappers {
  datatype Option<+T> = None | Some(value: T)

  datatype Result<+T, +E> = Ok(value: T) | Err(error: E)
}

module Bytes {
  type Byte = x: int | 0 <= x < 256
}

module Sets {
  lemma SubsetSize<T>(a: set<T>, b: set<T>)
    requires a <= b
    ensures |a| <= |b|
  {
    assert a + (b - a) == b;
  }

  /** A number beyond all of `taken`, for whoever needs one that is not. */
  lemma Above(taken: set<nat>) returns (bound: nat)
    ensures forall n :: n in taken ==> n < bound
  {
    if taken == {} {
      bound := 0;
    } else {
      var n :| n in taken;
      var rest := Above(taken - {n});
      bound := if n < rest then rest else n + 1;
      forall x | x in taken ensures x < bound {
        assert x == n || x in taken - {n};
      }
    }
  }
}

module Sequences {
  lemma ConcatAssociates<T>(a: seq<T>, b: seq<T>, c: seq<T>)
    ensures a + (b + c) == (a + b) + c
  {
  }
}
