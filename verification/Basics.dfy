/** Vocabulary shared by every component: optional values, outcomes, time units and sums. */
module Basics {

  datatype Option<+T> = None | Some(value: T) {
    function GetOr(default: T): T {
      match this
      case Some(v) => v
      case None => default
    }
  }

  /** The source's exceptions become `Err` values. */
  datatype Result<+T, +E> = Ok(value: T) | Err(error: E)

  datatype BookingStatus = PendingPayment | Confirmed | Cancelled | Completed

  /** Instants are integer milliseconds. */
  const HEURE_MS: int := 60 * 60 * 1000
  const JOUR_MS: int := 24 * HEURE_MS

  function Max(a: int, b: int): int {
    if a >= b then a else b
  }

  function Min(a: int, b: int): int {
    if a <= b then a else b
  }

  function Sum(xs: seq<int>): int {
    if xs == [] then 0 else Sum(xs[..|xs| - 1]) + xs[|xs| - 1]
  }

  predicate IsDigit(c: char) {
    '0' <= c <= '9'
  }

  /** `parts.join(separator)` */
  function Join(parts: seq<string>, separator: string): string {
    if parts == [] then "" else if |parts| == 1 then parts[0] else parts[0] + separator + Join(parts[1..], separator)
  }

  /** A subset is no larger, and is the whole set when it is as large. */
  lemma SubsetSize<T>(a: set<T>, b: set<T>)
    requires a <= b
    ensures |a| <= |b|
    ensures |a| == |b| ==> a == b
  {
    assert b == a + (b - a);
    assert |b| == |a| + |b - a|;
  }
}
