/** Shared vocabulary: optional values, results, bytes and the constants of packages/shared/src/constants.ts. */
module Wrappers {

  datatype Option<+T> = None | Some(value: T)

  datatype Result<+T, +E> = Success(value: T) | Failure(error: E)

  /** One octet of a Node Buffer. */
  type byte = x: int | 0 <= x < 256
}

module Constants {
  const MAX_FRAME_BYTES: nat := 1024 * 1024
  const MAX_FIRST_FRAME_BYTES: nat := 4 * 1024
  const PRE_CONNECT_QUEUE_MAX_BYTES: nat := 1024 * 1024
  const RING_BUFFER_MAX_BYTES: nat := 10 * 1024 * 1024
  const HEARTBEAT_MISS_LIMIT: nat := 3
  const DEAD_SESSION_RETAIN_MS: nat := 300_000
  const DEFAULT_WAIT_FOR_USER_IDLE_MS: nat := 1500
  const USER_IDLE_HARD_CAP_MS: nat := 10_000
}

/** Concatenation of a list of byte (or any other) sequences. */
module Flatten {

  function Flat<T>(xs: seq<seq<T>>): seq<T> {
    if xs == [] then [] else xs[0] + Flat(xs[1..])
  }

  lemma {:induction false} FlatAppend<T>(xs: seq<seq<T>>, ys: seq<seq<T>>)
    ensures Flat(xs + ys) == Flat(xs) + Flat(ys)
  {
    if xs == [] {
      assert xs + ys == ys;
    } else {
      assert (xs + ys)[1..] == xs[1..] + ys;
      FlatAppend(xs[1..], ys);
    }
  }

  lemma FlatSnoc<T>(xs: seq<seq<T>>, x: seq<T>)
    ensures Flat(xs + [x]) == Flat(xs) + x
  {
    FlatAppend(xs, [x]);
  }
}
